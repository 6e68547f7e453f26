/** The inputs on which BZ2_decompress leaves what C defines: exactly which
    they are, and one input of each kind. */
module UndefinedInputs {
  import opened Words
  import opened Counting
  import opened Mtf
  import opened MtfEncoder
  import opened HuffmanForest
  import opened HuffmanCodes
  import opened DecoderMachine
  import opened MachineInvariant
  import opened BlockFormat
  import opened ParseBlock
  import opened ParseTables

  // ---------- exactly which ----------

  ghost predicate SymbolOverflows(b: Body) {
    var l := LookLens(Table(b), b.zn, b.zvec);
    l.Symbol? && if l.sym == RUNA || l.sym == RUNB then b.n >= LAST_WEIGHT else CountOverflows(b)
  }

  /** The answer x is the last bit of one selector too many, or of a symbol
      that makes N or a count overflow. */
  ghost predicate Overflows(p: Parse, x: nat) {
    match p
    case Selector3(_, _, _, _, s, _) => x == 0 && |s| == BZ_MAX_SELECTORS
    case SymbolStart(b) => SymbolOverflows(b.(zvec := x))
    case SymbolBit(b) => SymbolOverflows(b.(zvec := 2 * b.zvec + x))
    case _ => false
  }

  lemma DecideOverflows(b: Body)
    ensures Decide(b) == Failed(Undefined) <==> SymbolOverflows(b)
  {
    hide LookLens, Table, RunFlushed, CountOverflows, MoveToFront, ByteOf, MinLen;
  }

  lemma {:induction false} SeekingDefined(h: Header, inUse16: seq<bool>, inUse: seq<bool>)
    ensures SeekMapping(h, inUse16, inUse) != Failed(Undefined)
    decreases 256 - |inUse|
  {
    hide UsedBytes;
    if |inUse| < 256 && |inUse| % 16 == 0 && |inUse| / 16 < |inUse16| && !inUse16[|inUse| / 16] {
      SeekingDefined(h, inUse16, inUse + Repeat(false, 16));
    }
  }

  lemma StepOverflows(p: Parse, x: nat)
    requires Sound(p) && !Stopped(p)
    ensures Resume(p, x) == Failed(Undefined) <==> Overflows(p, x)
  {
    hide SeekMapping, Decide, SymbolOverflows, UsedBytes, UndoSelectors, MinLen, TablesOk, AllBelow, Table,
        ValidLengths;
    match p
    case Mapping1(h, inUse16) => SeekingDefined(h, inUse16 + [x == 1], []);
    case Mapping2(h, inUse16, inUse) => SeekingDefined(h, inUse16, inUse + [x == 1]);
    case SymbolStart(b) => DecideOverflows(b.(zvec := x));
    case SymbolBit(b) => DecideOverflows(b.(zvec := 2 * b.zvec + x));
    case _ =>
  }

  /** Some answer of the run overflows. */
  ghost predicate RunOverflows(p: Parse, bits: seq<bool>)
    decreases |bits|
  {
    && !Stopped(p) && 0 < Need(p) <= |bits|
    && var x := Val(bits[..Need(p)]);
       Overflows(p, x) || RunOverflows(Resume(p, x), bits[Need(p)..])
  }

  /** Main result: the run leaves what C defines if and only if one of its
      answers is a selector, a digit or a run too many. */
  lemma {:induction false} UndefinedExactly(p: Parse, bits: seq<bool>)
    requires Sound(p) && !p.Failed?
    ensures Run(p, bits).0 == Failed(Undefined) <==> RunOverflows(p, bits)
    decreases |bits|
  {
    hide Resume, Overflows, Sound;
    if !Stopped(p) && 0 < Need(p) <= |bits| {
      var x := Val(bits[..Need(p)]);
      ValBound(bits[..Need(p)]);
      StepOverflows(p, x);
      ResumeSound(p, x);
      if !Resume(p, x).Failed? {
        UndefinedExactly(Resume(p, x), bits[Need(p)..]);
      }
    }
  }

  // ---------- what the weights and counts are ----------

  /** Taking symbols one after the other, up to the first that fails or ends
      the block. */
  function TakeAll(b: Body, syms: seq<nat>): Taken
    decreases |syms|
  {
    if |syms| == 0 then Again(b)
    else
      match TakeSymbol(b, syms[0])
      case Again(c) => TakeAll(c, syms[1..])
      case t => t
  }

  lemma {:induction false} TakeAllConcat(b: Body, s: seq<nat>, t: seq<nat>)
    ensures TakeAll(b, s + t) == match TakeAll(b, s) case Again(c) => TakeAll(c, t) case r => r
    decreases |s|
  {
    hide TakeSymbol;
    if |s| == 0 {
      assert s + t == t;
    } else {
      assert (s + t)[1..] == s[1..] + t;
      match TakeSymbol(b, s[0])
      case Again(c) => TakeAllConcat(c, s[1..], t);
      case _ =>
    }
  }

  ghost predicate AllDigits(ds: seq<nat>) {
    forall i :: 0 <= i < |ds| ==> ds[i] < 2
  }

  /** The length of a run with these digits. */
  function RunLength(ds: seq<nat>): nat {
    if |ds| == 0 then 0 else ds[0] + 1 + 2 * RunLength(ds[1..])
  }

  lemma {:induction false} AllRunB(k: nat)
    ensures RunLength(Repeat(RUNB, k)) == 2 * (Pow2(k) - 1)
  {
    if k != 0 {
      AllRunB(k - 1);
      assert Repeat(RUNB, k)[1..] == Repeat(RUNB, k - 1);
    }
  }

  lemma {:induction false} DigitsTaken(b: Body, ds: seq<nat>, j: nat)
    requires AllDigits(ds) && b.n == Pow2(j) && j + |ds| <= 30
    ensures TakeAll(b, ds) == Again(b.(w := b.w + b.n * RunLength(ds), n := Pow2(j + |ds|)))
    decreases |ds|
  {
    hide RunFlushed, CountOverflows, ByteOf, MoveToFront;
    if |ds| == 0 {
      assert b == b.(w := b.w + b.n * 0, n := Pow2(j + 0));
    } else {
      Pow2Thirty(j);
      DigitTaken(b, ds[0]);
      var c := b.(w := b.w + (ds[0] + 1) * b.n, n := 2 * b.n);
      DigitsTaken(c, ds[1..], j + 1);
      RunLengthStep(b.n, ds);
    }
  }

  lemma DigitTaken(b: Body, d: nat)
    requires d < 2
    ensures TakeSymbol(b, d) == if b.n >= LAST_WEIGHT then Wrong(Undefined)
                                else Again(b.(w := b.w + (d + 1) * b.n, n := 2 * b.n))
  {
  }

  lemma RunLengthStep(n: nat, ds: seq<nat>)
    requires |ds| > 0
    ensures (ds[0] + 1) * n + (2 * n) * RunLength(ds[1..]) == n * RunLength(ds)
  {
    hide RunLength;
    RunLengthNext(ds);
    Distribute(n, ds[0] + 1, RunLength(ds[1..]), RunLength(ds));
  }

  lemma RunLengthNext(ds: seq<nat>)
    requires |ds| > 0
    ensures RunLength(ds) == ds[0] + 1 + 2 * RunLength(ds[1..])
  {
  }

  lemma Distribute(n: nat, d: nat, r: nat, x: nat)
    requires x == d + 2 * r
    ensures d * n + (2 * n) * r == n * x
  {
  }

  lemma Pow2Thirty(j: nat)
    ensures Pow2(30) == LAST_WEIGHT && (j < 30 ==> Pow2(j) < LAST_WEIGHT)
  {
    Pow2Values();
    Pow2Add(15, 15);
    if j < 30 {
      Pow2Below(j, 30);
    }
  }

  /** Main result: a run and the symbol after it leave what C defines if and
      only if the run has over 30 digits, or its length and the count so far of
      its character make more than an int. */
  lemma RunUndefinedExactly(b: Body, ds: seq<nat>, s: nat)
    requires b.w == 0 && b.n == 1 && AllDigits(ds) && s >= 2
    ensures TakeAll(b, ds + [s]) == Wrong(Undefined)
       <==> |ds| > 30 || CountEq(b.col, FrontByte(b)) + RunLength(ds) > INT_MAX
  {
    hide TakeAll, RunFlushed, MoveToFront, ByteOf, CountEq, RunLength;
    if |ds| <= 30 {
      DigitsTaken(b, ds, 0);
      TakeAllConcat(b, ds, [s]);
      TakeOne(b.(w := RunLength(ds), n := Pow2(|ds|)), s);
    } else {
      TooManyDigits(b, ds, [s]);
    }
  }

  lemma TakeOne(b: Body, s: nat)
    ensures TakeAll(b, [s]) == TakeSymbol(b, s)
    ensures s >= 2 ==> (TakeSymbol(b, s) == Wrong(Undefined) <==> CountOverflows(b))
  {
    hide CountOverflows, RunFlushed, MoveToFront, ByteOf;
    assert [s][1..] == [];
  }

  lemma TooManyDigits(b: Body, ds: seq<nat>, rest: seq<nat>)
    requires b.w == 0 && b.n == 1 && AllDigits(ds) && |ds| > 30
    ensures TakeAll(b, ds + rest) == Wrong(Undefined)
  {
    hide RunFlushed, RunLength;
    DigitsTaken(b, ds[..30], 0);
    Pow2Thirty(30);
    var c := b.(w := b.w + b.n * RunLength(ds[..30]), n := Pow2(30));
    assert ds + rest == ds[..30] + ([ds[30]] + (ds[31..] + rest));
    TakeAllConcat(b, ds[..30], [ds[30]] + (ds[31..] + rest));
    DigitTaken(c, ds[30]);
  }

  // ---------- one input of each kind ----------

  /** The start of a stream up to the numbers of tables and selectors. */
  function Opening(inUse: seq<bool>): seq<bool>
    requires |inUse| == 256
  {
    HeaderBits(9) + (ByteFields(BLOCK_MAGIC) + (ByteFields(Word32Bytes(0))
    + (Bit(false) + (ToBits(0, 24) + MappingBits(inUse)))))
  }

  const HEADER := Header(9, 0, 0)

  lemma OpeningRead(inUse: seq<bool>, rest: seq<bool>)
    requires |inUse| == 256 && |UsedBytes(inUse, 256)| > 0
    ensures Run(Magic(0), Opening(inUse) + rest) == Run(Selector1(HEADER, inUse), rest)
  {
    hide Run, HeaderBits, ByteFields, Word32Bytes, ToBits, MappingBits, UsedBytes;
    var f5 := MappingBits(inUse) + rest;
    var f4 := Bit(false) + (ToBits(0, 24) + f5);
    var f3 := ByteFields(Word32Bytes(0)) + f4;
    var f2 := ByteFields(BLOCK_MAGIC) + f3;
    assert Opening(inUse) + rest == HeaderBits(9) + f2;
    assert BLOCK_MAGIC[0..] == BLOCK_MAGIC;
    HeaderRead(9, f2);
    BlockMagicRead(9, 0, f3);
    CrcRead(9, 0, f4);
    OrigPtrRead(9, 0, 0, f5);
    MappingRead(HEADER, inUse, rest);
  }

  /** The numbers of tables and selectors. */
  lemma CountsRead(inUse: seq<bool>, g: nat, n: nat, rest: seq<bool>)
    requires 2 <= g <= 6 && 1 <= n < 0x8000
    ensures Run(Selector1(HEADER, inUse), ToBits(g, 3) + (ToBits(n, 15) + rest)) ==
        Run(Selector3(HEADER, inUse, g, n, [], 0), rest)
  {
    hide Run, ToBits;
    Pow2Values();
    RunField(Selector1(HEADER, inUse), g, ToBits(n, 15) + rest);
    RunField(Selector2(HEADER, inUse, g), n, rest);
  }

  lemma {:induction false} OneSelectorTooMany(inUse: seq<bool>, g: nat, n: nat, s: seq<nat>)
    requires 0 < g && |s| <= BZ_MAX_SELECTORS < n
    ensures Run(Selector3(HEADER, inUse, g, n, s, 0), Repeat(false, BZ_MAX_SELECTORS + 1 - |s|)).0 == Failed(Undefined)
    decreases BZ_MAX_SELECTORS - |s|
  {
    hide Run, UndoSelectors;
    var k := BZ_MAX_SELECTORS - |s|;
    assert Repeat(false, k + 1) == [false] + Repeat(false, k);
    RunBit(Selector3(HEADER, inUse, g, n, s, 0), false, Repeat(false, k));
    if k == 0 {
      FailedStays(Repeat(false, k));
    } else {
      OneSelectorTooMany(inUse, g, n, s + [0]);
    }
  }

  lemma FailedStays(bits: seq<bool>)
    ensures Run(Failed(Undefined), bits) == (Failed(Undefined), bits)
  {
  }

  /** 18003 selectors, all of them sent. */
  lemma SelectorInput(inUse: seq<bool>)
    requires |inUse| == 256 && |UsedBytes(inUse, 256)| > 0
    ensures Run(Magic(0), Opening(inUse) + (ToBits(2, 3) + (ToBits(18003, 15) + Repeat(false, 18003)))).0 ==
        Failed(Undefined)
  {
    hide Run, Opening, ToBits, UsedBytes;
    var tail := Repeat(false, 18003);
    OpeningRead(inUse, ToBits(2, 3) + (ToBits(18003, 15) + tail));
    CountsRead(inUse, 2, 18003, tail);
    OneSelectorTooMany(inUse, 2, 18003, []);
  }

  /** Bytes 0 and 1 in use. */
  function TwoInUse(): seq<bool> {
    seq(256, c => c < 2)
  }

  lemma {:induction false} TwoUsed(c: nat)
    requires 2 <= c <= 256
    ensures UsedBytes(TwoInUse(), c) == [0, 1]
  {
    if c == 2 {
      assert UsedBytes(TwoInUse(), 0) == [];
      assert UsedBytes(TwoInUse(), 1) == [0];
    } else {
      TwoUsed(c - 1);
    }
  }

  const FLAT: seq<nat> := [2, 2, 2, 2]

  lemma FlatFits()
    ensures Fits(FLAT)
  {
    hide Pow2, CodeSpace, KraftSum;
    UsedNextFlat();
    UsedIsKraft(FLAT, LONGEST);
    Pow2Add(18, 2);
    Pow2Values();
  }

  lemma UsedNextFlat()
    ensures CodeSpace(FLAT, LONGEST) == 4 * Pow2(18)
  {
    hide Pow2;
    assert FLAT[..3] == [2, 2, 2] && [2, 2, 2][..2] == [2, 2] && [2, 2][..1] == [2] && [2][..0] == [];
    assert CodeSpace([], LONGEST) == 0;
    assert CodeSpace([2], LONGEST) == Pow2(18);
    assert CodeSpace([2, 2], LONGEST) == 2 * Pow2(18);
    assert CodeSpace([2, 2, 2], LONGEST) == 3 * Pow2(18);
  }

  const SELECTOR: seq<nat> := [0]

  /** A block of up to 50 symbols, the last of them end-of-block. */
  ghost predicate FlatBlock(syms: seq<nat>) {
    && 0 < |syms| <= 50 && syms[|syms| - 1] == 3
    && (forall k :: 0 <= k < |syms| - 1 ==> syms[k] <= 2) && CodesKnown([FLAT, FLAT], SELECTOR, syms)
  }

  function FlatTables(): seq<bool> {
    TablesBits([FLAT, FLAT])
  }

  /** A block with two tables, both flat. */
  function FlatInput(syms: seq<nat>): seq<bool>
    requires FlatBlock(syms)
  {
    Opening(TwoInUse()) + (ToBits(2, 3) + (ToBits(1, 15) + (UnaryAll([0]) + (FlatTables()
    + SymbolBits([FLAT, FLAT], SELECTOR, syms, 0)))))
  }

  const FLAT_BODY := Body(HEADER, [0, 1], SELECTOR, [FLAT, FLAT], -1, 0, 0, 0, Identity(256), [], 0, 1)

  lemma FlatRead(syms: seq<nat>)
    requires FlatBlock(syms)
    ensures Run(Magic(0), FlatInput(syms)) == Run(BeginSymbol(FLAT_BODY), SymbolBits([FLAT, FLAT], SELECTOR, syms, 0))
  {
    hide Run, Opening, ToBits, UsedBytes, TwoInUse, UnaryAll, FlatTables, SymbolBits, BeginSymbol, StartSymbols,
        CodesKnown, AlphaSize;
    var inUse, f3 := TwoInUse(), SymbolBits([FLAT, FLAT], SELECTOR, syms, 0);
    var f2 := FlatTables() + f3;
    var f1 := UnaryAll([0]) + f2;
    TwoUsed(256);
    TwoInUseSize();
    OpeningRead(inUse, ToBits(2, 3) + (ToBits(1, 15) + f1));
    CountsRead(inUse, 2, 1, f1);
    SelectorsRead(HEADER, inUse, 2, 1, [], [0], f2);
    assert [] + [0] == [0];
    FirstSelector();
    FlatTablesRead(f3);
  }

  lemma FlatTablesRead(rest: seq<bool>)
    ensures Run(Coding1(HEADER, TwoInUse(), 2, SELECTOR, []), FlatTables() + rest) == Run(BeginSymbol(FLAT_BODY), rest)
  {
    hide Run, UsedBytes, TwoInUse, TablesBits, BeginSymbol, Fits;
    TwoUsed(256);
    TwoInUseSize();
    FlatFits();
    FitsMeansValid(FLAT);
    TablesRead(Frame(HEADER, TwoInUse(), 2, SELECTOR, []), [FLAT, FLAT], rest);
    assert [] + [FLAT, FLAT] == [FLAT, FLAT];
  }

  lemma TwoInUseSize()
    ensures |TwoInUse()| == 256
  {
  }

  lemma FirstSelector()
    ensures UndoSelectors(Identity(2), [0]) == SELECTOR
  {
    assert [0][1..] == [];
    assert UndoSelectors(MoveToFront(Identity(2), 0), []) == [];
  }

  ghost predicate SameData(b: Body, c: Body) {
    b.h == c.h && b.used == c.used && b.list == c.list && b.col == c.col && b.w == c.w && b.n == c.n
  }

  lemma TakeSame(b: Body, c: Body, s: nat)
    requires SameData(b, c)
    ensures match TakeSymbol(b, s)
            case Again(b') => var t := TakeSymbol(c, s);
              t.Again? && SameData(b', t.b) && t.b == c.(list := t.b.list, col := t.b.col, w := t.b.w, n := t.b.n)
              && |t.b.list| == |c.list| && (c.n <= c.w + 1 ==> t.b.n <= t.b.w + 1)
            case Wrong(e) => TakeSymbol(c, s) == Wrong(e)
            case Column(_) => true
  {
    hide CountEq, MoveToFront, ByteOf;
  }

  /** Symbols that fail when taken make the machine fail when sent. */
  lemma {:induction false} SymbolsFail(b: Body, c: Body, syms: seq<nat>, k: nat, e: Error)
    requires EndsOnce(c, syms) && GroupAt(c, k) && k <= |syms| && SameData(b, c) && TakeAll(b, syms[k..]) == Wrong(e)
    ensures Run(BeginSymbol(c), SymbolBits(c.lens, c.selector, syms, k)).0 == Failed(e)
    decreases |syms| - k
  {
    hide Run, BeginSymbol, SymbolBits, TakeSymbol, Fits, Waiting, CodesKnown;
    var s, d := syms[k], Waiting(c, k);
    WaitingSame(c, syms, k);
    SymbolRead(c, syms, k, []);
    NothingAfter(c, syms, k);
    TakeSame(b, d, s);
    assert syms[k..][1..] == syms[k + 1..];
    match TakeSymbol(b, s)
    case Again(b') =>
      var d' := TakeSymbol(d, s).b;
      GroupStays(d, d', k + 1);
      SymbolsFail(b', d', syms, k + 1, e);
    case Wrong(_) =>
      StopsFailed(e, SymbolBits(c.lens, c.selector, syms, k + 1));
    case Column(_) =>
  }

  lemma StopsFailed(e: Error, bits: seq<bool>)
    ensures Run(Failed(e), bits).0 == Failed(e)
  {
  }

  lemma GroupStays(d: Body, e: Body, k: nat)
    requires GroupAt(d, k) && d.groupNo == e.groupNo && d.groupPos == e.groupPos
    ensures GroupAt(e, k)
  {
  }

  lemma NothingAfter(c: Body, syms: seq<nat>, k: nat)
    requires CodesKnown(c.lens, c.selector, syms) && k < |syms|
    ensures SymbolBits(c.lens, c.selector, syms, k) + [] == SymbolBits(c.lens, c.selector, syms, k)
    ensures SymbolBits(c.lens, c.selector, syms, k + 1) + [] == SymbolBits(c.lens, c.selector, syms, k + 1)
  {
  }

  lemma WaitingSame(c: Body, syms: seq<nat>, k: nat)
    requires EndsOnce(c, syms) && GroupAt(c, k) && k < |syms|
    ensures var d := Waiting(c, k);
            SameData(c, d) && d.lens == c.lens && d.selector == c.selector && EndsOnce(d, syms) && GroupAt(d, k + 1)
    ensures CodesKnown(c.lens, c.selector, syms)
  {
    hide MinLen, Fits, BeginSymbol;
    BeginAt(c, k);
  }

  lemma FlatStart(syms: seq<nat>)
    requires FlatBlock(syms)
    ensures EndsOnce(FLAT_BODY, syms) && GroupAt(FLAT_BODY, 0)
  {
    hide Fits;
    FlatFits();
  }

  /** Thirty-one digits in a run. */
  lemma DigitInput()
    ensures FlatBlock(Repeat(RUNA, 31) + [3])
    ensures Run(Magic(0), FlatInput(Repeat(RUNA, 31) + [3])).0 == Failed(Undefined)
  {
    hide Run, FlatInput, TakeAll, EndsOnce;
    var syms := Repeat(RUNA, 31) + [3];
    FlatRead(syms);
    FlatStart(syms);
    TooManyDigits(FLAT_BODY, Repeat(RUNA, 31), [3]);
    assert syms[0..] == syms;
    SymbolsFail(FLAT_BODY, FLAT_BODY, syms, 0, Undefined);
  }

  /** Two characters of a kind, then a run of thirty RUNBs of the same. */
  lemma CountInput()
    ensures FlatBlock([RUNB, 2, 2] + Repeat(RUNB, 30) + [3])
    ensures Run(Magic(0), FlatInput([RUNB, 2, 2] + Repeat(RUNB, 30) + [3])).0 == Failed(Undefined)
  {
    hide Run, FlatInput, TakeAll, EndsOnce, RunLength, CountEq;
    var syms := [RUNB, 2, 2] + Repeat(RUNB, 30) + [3];
    FlatRead(syms);
    FlatStart(syms);
    var c := ThreeTaken();
    AllRunB(30);
    Pow2Thirty(30);
    RunUndefinedExactly(c, Repeat(RUNB, 30), 3);
    assert syms == [RUNB, 2, 2] + (Repeat(RUNB, 30) + [3]);
    TakeAllConcat(FLAT_BODY, [RUNB, 2, 2], Repeat(RUNB, 30) + [3]);
    assert syms[0..] == syms;
    SymbolsFail(FLAT_BODY, FLAT_BODY, syms, 0, Undefined);
  }

  /** After 0, 0, 1 and 0 the run of zeros can start. */
  lemma ThreeTaken() returns (c: Body)
    ensures TakeAll(FLAT_BODY, [RUNB, 2, 2]) == Again(c) && c.w == 0 && c.n == 1
    ensures CountEq(c.col, FrontByte(c)) >= 2
  {
    var b1 := FLAT_BODY.(w := 2, n := 2);
    assert TakeSymbol(FLAT_BODY, RUNB) == Again(b1);
    var b2 := b1.(list := MoveToFront(b1.list, 1), col := [0, 0, 1], w := 0, n := 1);
    c := b2.(list := MoveToFront(b2.list, 1), col := [0, 0, 1, 0]);
    assert [0, 0, 1, 0][..3] == [0, 0, 1] && [0, 0, 1][..2] == [0, 0] && [0, 0][..1] == [0] && [0][..0] == [];
    CountsSmall(b1);
    assert RunFlushed(b1) == [0, 0];
    assert TakeSymbol(b1, 2) == Again(b2);
    CountsSmall(b2);
    assert RunFlushed(b2) + [0] == [0, 0, 1, 0];
    assert TakeSymbol(b2, 2) == Again(c);
    assert [RUNB, 2, 2][1..] == [2, 2] && [2, 2][1..] == [2] && [2][1..] == [];
    assert TakeAll(c, []) == Again(c);
    assert TakeAll(b2, [2]) == Again(c);
    assert TakeAll(b1, [2, 2]) == Again(c);
  }

  lemma CountsSmall(b: Body)
    requires |b.col| + b.w <= INT_MAX
    ensures !CountOverflows(b)
  {
  }
}
