/** Reading back the selectors, the coding tables and the symbols. */
module ParseTables {
  import opened Words
  import opened Mtf
  import opened HuffmanForest
  import opened HuffmanCodes
  import opened DecoderMachine
  import opened BlockFormat
  import opened ParseBlock

  // ---------- selectors ----------

  lemma {:induction false} UnaryRead(h: Header, inUse: seq<bool>, nGroups: nat, nSelectors: nat, s: seq<nat>,
                                     j0: nat, j: nat, rest: seq<bool>)
    requires j0 + j < nGroups
    ensures Run(Selector3(h, inUse, nGroups, nSelectors, s, j0), Unary(j) + rest)
         == Run(AfterSelector3(h, inUse, nGroups, nSelectors, s, j0 + j, 0), rest)
    decreases j
  {
    hide Run, UndoSelectors;
    if j == 0 {
      RunBit(Selector3(h, inUse, nGroups, nSelectors, s, j0), false, rest);
    } else {
      RunBit(Selector3(h, inUse, nGroups, nSelectors, s, j0), true, Unary(j - 1) + rest);
      assert Unary(j) + rest == [true] + (Unary(j - 1) + rest);
      UnaryRead(h, inUse, nGroups, nSelectors, s, j0 + 1, j - 1, rest);
    }
  }

  lemma {:induction false} SelectorsRead(h: Header, inUse: seq<bool>, nGroups: nat, nSelectors: nat,
                                         s: seq<nat>, t: seq<nat>, rest: seq<bool>)
    requires |t| > 0 && |s| + |t| == nSelectors <= BZ_MAX_SELECTORS && forall i :: 0 <= i < |t| ==> t[i] < nGroups
    ensures Run(Selector3(h, inUse, nGroups, nSelectors, s, 0), UnaryAll(t) + rest)
         == Run(Coding1(h, inUse, nGroups, UndoSelectors(Identity(nGroups), s + t), []), rest)
    decreases |t|
  {
    hide Run, UndoSelectors, Unary;
    var tail := UnaryAll(t[1..]) + rest;
    assert UnaryAll(t) + rest == Unary(t[0]) + tail;
    UnaryRead(h, inUse, nGroups, nSelectors, s, 0, t[0], tail);
    if |t| == 1 {
      assert s + [t[0]] == s + t;
      assert tail == rest;
    } else {
      SelectorsRead(h, inUse, nGroups, nSelectors, s + [t[0]], t[1..], rest);
      assert s + [t[0]] + t[1..] == s + t;
    }
  }

  /** The decoder's selectors are the encoder's. */
  lemma {:induction false} SelectorsRoundTrip(pos: seq<nat>, selector: seq<nat>)
    requires Over(selector, pos)
    ensures forall i :: 0 <= i < |selector| ==> SelectorMtf(pos, selector)[i] < |pos|
    ensures UndoSelectors(pos, SelectorMtf(pos, selector)) == selector
    decreases |selector|
  {
    if |selector| != 0 {
      var j := IndexOf(pos, selector[0]);
      MoveToFrontMembers(pos, j);
      SelectorsRoundTrip(MoveToFront(pos, j), selector[1..]);
      assert [selector[0]] + selector[1..] == selector;
    }
  }

  // ---------- coding tables ----------

  /** The fields of Coding2 that stay fixed while a table is read. */
  datatype Frame = Frame(h: Header, inUse: seq<bool>, nGroups: nat, selector: seq<nat>, lens: seq<seq<nat>>)

  function AtTable(f: Frame): Parse { Coding1(f.h, f.inUse, f.nGroups, f.selector, f.lens) }

  function AtEntry(f: Frame, row: seq<nat>, curr: nat): Parse {
    Coding2(f.h, f.inUse, f.nGroups, f.selector, f.lens, row, curr)
  }

  function AtDown(f: Frame, row: seq<nat>, curr: nat): Parse {
    Coding3(f.h, f.inUse, f.nGroups, f.selector, f.lens, row, curr)
  }

  function Entered(f: Frame, row: seq<nat>, curr: nat): Parse {
    AfterCoding2(f.h, f.inUse, f.nGroups, f.selector, f.lens, row, curr, 0)
  }

  lemma StepDelta(f: Frame, row: seq<nat>, curr: nat, up: bool, rest: seq<bool>)
    requires 1 <= (if up then curr + 1 else curr - 1) <= LONGEST
    ensures Run(AtEntry(f, row, curr), [true, !up] + rest)
         == Run(AtEntry(f, row, if up then curr + 1 else curr - 1), rest)
  {
    hide Run;
    assert [true, !up] + rest == [true] + ([!up] + rest);
    RunBit(AtEntry(f, row, curr), true, [!up] + rest);
    RunBit(AtDown(f, row, curr), !up, rest);
  }

  lemma {:induction false} DeltaRead(f: Frame, row: seq<nat>, curr: nat, target: nat, rest: seq<bool>)
    requires 1 <= curr <= LONGEST && 1 <= target <= LONGEST
    ensures Run(AtEntry(f, row, curr), Delta(curr, target) + rest) == Run(Entered(f, row, target), rest)
    decreases if curr < target then target - curr else curr - target
  {
    hide Run, AfterCoding2;
    if curr == target {
      hide Resume;
      RunBit(AtEntry(f, row, curr), false, rest);
      EnteredIs(f, row, curr);
    } else {
      var next := if curr < target then curr + 1 else curr - 1;
      StepDelta(f, row, curr, curr < target, Delta(next, target) + rest);
      assert Delta(curr, target) + rest == [true, !(curr < target)] + (Delta(next, target) + rest);
      DeltaRead(f, row, next, target, rest);
    }
  }

  lemma EnteredIs(f: Frame, row: seq<nat>, curr: nat)
    ensures Resume(AtEntry(f, row, curr), 0) == Entered(f, row, curr)
  {
  }

  /** Where the machine goes when a table is complete. */
  function TableDone(f: Frame, row: seq<nat>): Parse {
    if |f.lens| + 1 < f.nGroups then AtTable(f.(lens := f.lens + [row]))
    else StartSymbols(f.h, f.inUse, f.selector, f.lens + [row])
  }

  lemma {:induction false} DeltasRead(f: Frame, row: seq<nat>, k: nat, curr: nat, rest: seq<bool>)
    requires k < |row| == AlphaSize(f.inUse) && ValidLengths(row) && 1 <= curr <= LONGEST
    ensures Run(AtEntry(f, row[..k], curr), Deltas(curr, row[k..]) + rest) == Run(TableDone(f, row), rest)
    decreases |row| - k
  {
    hide Run, Delta, StartSymbols, AlphaSize;
    var tail := Deltas(row[k], row[k + 1..]) + rest;
    assert row[k..][1..] == row[k + 1..];
    assert Deltas(curr, row[k..]) + rest == Delta(curr, row[k]) + tail;
    DeltaRead(f, row[..k], curr, row[k], tail);
    assert row[..k] + [row[k]] == row[..k + 1];
    if k + 1 < |row| {
      DeltasRead(f, row, k + 1, row[k], rest);
    } else {
      assert row[..k + 1] == row;
      assert tail == rest;
    }
  }

  lemma TableRead(f: Frame, row: seq<nat>, rest: seq<bool>)
    requires 0 < |row| == AlphaSize(f.inUse) && ValidLengths(row)
    ensures Run(AtTable(f), TableBits(row) + rest) == Run(TableDone(f, row), rest)
  {
    hide Run, Deltas, StartSymbols, AlphaSize;
    Pow2Values();
    assert 1 <= row[0] <= LONGEST;
    RunField(AtTable(f), row[0], Deltas(row[0], row) + rest);
    assert TableBits(row) + rest == ToBits(row[0], 5) + (Deltas(row[0], row) + rest);
    assert row[..0] == [] && row[0..] == row;
    DeltasRead(f, row, 0, row[0], rest);
  }

  lemma {:induction false} TablesRead(f: Frame, todo: seq<seq<nat>>, rest: seq<bool>)
    requires |todo| > 0 && |f.lens| + |todo| == f.nGroups
    requires forall t :: 0 <= t < |todo| ==> 0 < |todo[t]| == AlphaSize(f.inUse) && ValidLengths(todo[t])
    ensures Run(AtTable(f), TablesBits(todo) + rest) == Run(StartSymbols(f.h, f.inUse, f.selector, f.lens + todo), rest)
    decreases |todo|
  {
    hide Run, TableBits, StartSymbols, AlphaSize, ValidLengths;
    var tail := TablesBits(todo[1..]) + rest;
    assert TablesBits(todo) + rest == TableBits(todo[0]) + tail;
    TableRead(f, todo[0], tail);
    if |todo| == 1 {
      assert f.lens + [todo[0]] == f.lens + todo;
      assert tail == rest;
    } else {
      TablesRead(f.(lens := f.lens + [todo[0]]), todo[1..], rest);
      assert f.lens + [todo[0]] + todo[1..] == f.lens + todo;
    }
  }

  // ---------- one symbol ----------

  /** A body that has read the first n bits of the code of symbol i. */
  ghost function Reading(b: Body, i: nat, n: nat): Body
    requires i < |Table(b)| && n <= Table(b)[i]
  {
    b.(zn := n, zvec := Val(CodeBits(Table(b), i)[..n]))
  }

  lemma {:induction false} CodeTail(b: Body, i: nat, n: nat, rest: seq<bool>)
    requires Fits(Table(b)) && i < |Table(b)| && MinLen(Table(b)) <= n <= Table(b)[i]
    ensures Run(Decide(Reading(b, i, n)), CodeBits(Table(b), i)[n..] + rest)
         == Run(GotSymbol(Reading(b, i, Table(b)[i]), i), rest)
    decreases Table(b)[i] - n
  {
    hide Run, GotSymbol, LookLens, CodeBits, Fits, MinLen, Val;
    var lens := Table(b);
    var bits := CodeBits(lens, i);
    LookUpFindsSymbol(lens, i, n);
    if n == lens[i] {
      assert bits[n..] + rest == rest;
    } else {
      var r := Reading(b, i, n);
      var tail := bits[n + 1..] + rest;
      assert bits[n..] + rest == [bits[n]] + tail;
      RunBit(SymbolBit(r.(zn := n + 1)), bits[n], tail);
      ValNext(bits, n);
      CodeTail(b, i, n + 1, rest);
    }
  }

  lemma ValNext(bits: seq<bool>, n: nat)
    requires n < |bits|
    ensures Val(bits[..n + 1]) == 2 * Val(bits[..n]) + if bits[n] then 1 else 0
  {
    assert bits[..n + 1][..n] == bits[..n];
  }

  lemma CodeRead(b: Body, i: nat, rest: seq<bool>)
    requires Fits(Table(b)) && i < |Table(b)| && b.zn == MinLen(Table(b))
    ensures Run(SymbolStart(b), CodeBits(Table(b), i) + rest) == Run(GotSymbol(b, i), rest)
  {
    hide Run, GotSymbol, CodeBits, MinLen, Val, Fits, Decide, ToBits, KraftSum;
    var lens := Table(b);
    var bits := CodeBits(lens, i);
    var n := MinLen(lens);
    FitsMeansValid(lens);
    MinMaxLen(lens);
    var x := Val(bits[..n]);
    ValBound(bits[..n]);
    ToBitsVal(bits[..n]);
    CodeHead(b, x, bits[n..] + rest);
    assert bits + rest == bits[..n] + (bits[n..] + rest);
    CodeTail(b, i, n, rest);
    SymbolForgetsCode(b, Reading(b, i, lens[i]), i);
  }

  lemma FitsMeansValid(lens: seq<nat>)
    requires Fits(lens)
    ensures ValidLengths(lens)
  {
  }

  lemma CodeHead(b: Body, x: nat, rest: seq<bool>)
    requires 0 < b.zn && x < Pow2(b.zn)
    ensures Run(SymbolStart(b), ToBits(x, b.zn) + rest) == Run(Decide(b.(zvec := x)), rest)
  {
    hide Run, Decide;
    RunField(SymbolStart(b), x, rest);
  }

  /** What follows a symbol does not depend on how its code was read. */
  lemma SymbolForgetsCode(b: Body, c: Body, i: int)
    requires c == b.(zn := c.zn, zvec := c.zvec)
    ensures GotSymbol(c, i) == GotSymbol(b, i)
  {
    hide MinLen, FinishBlock, ByteOf, Repeat;
    assert Table(c) == Table(b) && RunFlushed(c) == RunFlushed(b);
  }

  // ---------- all symbols ----------

  function MapBytes(used: seq<byte>, s: seq<nat>): (r: seq<byte>)
    ensures |r| == |s| && forall i :: 0 <= i < |s| ==> r[i] == ByteOf(used, s[i])
  {
    seq(|s|, i requires 0 <= i < |s| => ByteOf(used, s[i]))
  }

  /** Before symbol k, the position within the groups of 50. */
  ghost predicate GroupAt(b: Body, k: nat) {
    if k % BZ_G_SIZE == 0 then b.groupPos == 0 && b.groupNo == k / BZ_G_SIZE - 1
    else b.groupPos == BZ_G_SIZE - k % BZ_G_SIZE && b.groupNo == k / BZ_G_SIZE
  }

  /** The body that waits for the code of symbol k. */
  ghost function Waiting(b: Body, k: nat): Body {
    var b' := b.(groupNo := k / BZ_G_SIZE, groupPos := BZ_G_SIZE - 1 - k % BZ_G_SIZE);
    b'.(zn := MinLen(Table(b')), zvec := 0)
  }

  lemma BeginAt(b: Body, k: nat)
    requires GroupAt(b, k) && k < BZ_G_SIZE * |b.selector|
    ensures BeginSymbol(b) == SymbolStart(Waiting(b, k))
    ensures GroupAt(Waiting(b, k), k + 1)
  {
    hide MinLen;
    assert k / BZ_G_SIZE < |b.selector|;
    if k % BZ_G_SIZE == 0 {
      assert Waiting(b, k).groupPos == BZ_G_SIZE - 1;
    } else {
      assert b.groupNo == k / BZ_G_SIZE;
      assert b == b.(groupNo := k / BZ_G_SIZE);
    }
    if k % BZ_G_SIZE == BZ_G_SIZE - 1 {
      assert (k + 1) / BZ_G_SIZE == k / BZ_G_SIZE + 1 && (k + 1) % BZ_G_SIZE == 0;
    } else {
      assert (k + 1) / BZ_G_SIZE == k / BZ_G_SIZE && (k + 1) % BZ_G_SIZE == k % BZ_G_SIZE + 1;
    }
  }

  /** The symbols of a block: end-of-block only at the end. */
  ghost predicate Sequence(b: Body, syms: seq<nat>) {
    && |syms| > 0 && |b.list| == 256 && 0 < |b.used| <= 256 && b.n <= b.w + 1 && b.h.level <= 9
    && syms[|syms| - 1] == |b.used| + 1 && forall i :: 0 <= i < |syms| - 1 ==> syms[i] <= |b.used|
  }

  /** The same in the canonical codes of tables that fit the code space. */
  ghost predicate EndsOnce(b: Body, syms: seq<nat>) {
    && Sequence(b, syms) && CodesKnown(b.lens, b.selector, syms)
    && (forall t :: 0 <= t < |b.lens| ==> Fits(b.lens[t]))
  }

  /** The last column once symbols k on have been decoded. */
  ghost function FinalColumn(b: Body, syms: seq<nat>, k: nat): seq<byte>
    requires Sequence(b, syms) && k < |syms|
  {
    b.col + MapBytes(b.used, Decode(b.list, b.w, b.n, syms[k..|syms| - 1]))
  }

  lemma SymbolRead(b: Body, syms: seq<nat>, k: nat, rest: seq<bool>)
    requires EndsOnce(b, syms) && GroupAt(b, k) && k < |syms|
    ensures Run(BeginSymbol(b), SymbolBits(b.lens, b.selector, syms, k) + rest)
         == Run(GotSymbol(Waiting(b, k), syms[k]), SymbolBits(b.lens, b.selector, syms, k + 1) + rest)
  {
    hide Run, GotSymbol, CodeBits, MinLen, Fits, BeginSymbol;
    var tail := SymbolBits(b.lens, b.selector, syms, k + 1) + rest;
    BeginAt(b, k);
    var c := Waiting(b, k);
    assert k / BZ_G_SIZE < |b.selector|;
    assert Table(c) == b.lens[b.selector[k / BZ_G_SIZE]];
    CodeRead(c, syms[k], tail);
    assert SymbolBits(b.lens, b.selector, syms, k) + rest == CodeBits(Table(c), syms[k]) + tail;
  }
}
