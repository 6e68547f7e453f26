/** What every reachable state of the decoder machine keeps, whatever bits it
    is fed. */
module MachineInvariant {
  import opened Words
  import opened Mtf
  import opened MtfEncoder
  import opened HuffmanCodes
  import opened DecoderMachine

  ghost predicate HeaderOk(h: Header) {
    1 <= h.level <= 9 && h.crc < WORD
  }

  ghost predicate MappingOk(inUse: seq<bool>) {
    |inUse| == 256 && |UsedBytes(inUse, 256)| > 0
  }

  ghost predicate GroupsOk(nGroups: nat) {
    2 <= nGroups <= 6
  }

  ghost predicate AllBelow(s: seq<nat>, n: nat) {
    forall i :: 0 <= i < |s| ==> s[i] < n
  }

  /** Complete tables for an alphabet. */
  ghost predicate TablesOk(lens: seq<seq<nat>>, alphaSize: nat) {
    forall t {:trigger lens[t]} :: 0 <= t < |lens| ==> |lens[t]| == alphaSize && ValidLengths(lens[t])
  }

  ghost predicate CodingOk(h: Header, inUse: seq<bool>, nGroups: nat, selector: seq<nat>, lens: seq<seq<nat>>) {
    && HeaderOk(h) && MappingOk(inUse) && GroupsOk(nGroups) && AllBelow(selector, nGroups)
    && |lens| < nGroups && TablesOk(lens, AlphaSize(inUse))
  }

  ghost predicate RowOk(row: seq<nat>, alphaSize: nat) {
    |row| < alphaSize && forall i :: 0 <= i < |row| ==> 1 <= row[i] <= LONGEST
  }

  ghost predicate BodyOk(b: Body) {
    && HeaderOk(b.h) && 0 < |b.used| <= 256 && |b.list| == 256 && |b.col| <= BLOCK_UNIT * b.h.level
    && |b.lens| > 0 && TablesOk(b.lens, |b.used| + 2) && AllBelow(b.selector, |b.lens|)
    && b.groupPos < BZ_G_SIZE && -1 <= b.groupNo < |b.selector|
    && b.n >= 1 && (b.n == 1 ==> b.w == 0)
  }

  /** Between the request for a symbol and its last bit. */
  ghost predicate InSymbol(b: Body) {
    BodyOk(b) && 0 <= b.groupNo && b.zn <= LONGEST + 1
  }

  ghost predicate Sound(p: Parse) {
    match p
    case Magic(k) => k < 4
    case BlkHdr(level, k) => 1 <= level <= 9 && k < 6
    case BCrc(level, k, crc) => 1 <= level <= 9 && k < 4 && crc < WORD
    case RandBit(level, crc) => 1 <= level <= 9 && crc < WORD
    case OrigPtr(level, crc, k, ptr) => 1 <= level <= 9 && k < 3 && crc < WORD
    case Mapping1(h, inUse16) => HeaderOk(h) && |inUse16| < 16
    case Mapping2(h, inUse16, inUse) => HeaderOk(h) && |inUse16| == 16 && |inUse| < 256
    case Selector1(h, inUse) => HeaderOk(h) && MappingOk(inUse)
    case Selector2(h, inUse, nGroups) => HeaderOk(h) && MappingOk(inUse) && GroupsOk(nGroups)
    case Selector3(h, inUse, nGroups, nSelectors, s, j) =>
      && HeaderOk(h) && MappingOk(inUse) && GroupsOk(nGroups) && |s| < nSelectors && |s| <= BZ_MAX_SELECTORS
      && AllBelow(s, nGroups) && j < nGroups
    case Coding1(h, inUse, nGroups, selector, lens) => CodingOk(h, inUse, nGroups, selector, lens)
    case Coding2(h, inUse, nGroups, selector, lens, row, curr) =>
      CodingOk(h, inUse, nGroups, selector, lens) && RowOk(row, AlphaSize(inUse)) && 1 <= curr <= LONGEST
    case Coding3(h, inUse, nGroups, selector, lens, row, curr) =>
      CodingOk(h, inUse, nGroups, selector, lens) && RowOk(row, AlphaSize(inUse)) && 1 <= curr <= LONGEST
    case SymbolStart(b) => InSymbol(b) && b.zn == MinLen(Table(b))
    case SymbolBit(b) => InSymbol(b)
    case EndHdr(level, k) => 1 <= level <= 9 && 1 <= k < 6
    case CCrc(level, k, crc) => 1 <= level <= 9 && k < 4 && crc < WORD
    case Output(h, col) => HeaderOk(h) && h.origPtr < |col| <= BLOCK_UNIT * h.level
    case Idle(crc) => crc < WORD
    case Failed(_) => true
  }

  // ---------- one piece of code between requests at a time ----------

  lemma {:induction false} SeekMappingSound(h: Header, inUse16: seq<bool>, inUse: seq<bool>)
    requires HeaderOk(h) && |inUse16| == 16 && |inUse| <= 256
    ensures Sound(SeekMapping(h, inUse16, inUse))
    decreases 256 - |inUse|
  {
    hide UsedBytes;
    if |inUse| < 256 && |inUse| % 16 == 0 && !inUse16[|inUse| / 16] {
      SeekMappingSound(h, inUse16, inUse + Repeat(false, 16));
    }
  }

  lemma {:induction false} UndoSelectorsBelow(pos: seq<nat>, s: seq<nat>, n: nat)
    requires AllBelow(pos, n)
    ensures AllBelow(UndoSelectors(pos, s), n)
    decreases |s|
  {
    if |s| > 0 && s[0] < |pos| {
      UndoSelectorsBelow(MoveToFront(pos, s[0]), s[1..], n);
    }
  }

  lemma Selector3Sound(h: Header, inUse: seq<bool>, nGroups: nat, nSelectors: nat, s: seq<nat>, j: nat, x: nat)
    requires Sound(Selector3(h, inUse, nGroups, nSelectors, s, j))
    ensures Sound(AfterSelector3(h, inUse, nGroups, nSelectors, s, j, x))
  {
    hide UndoSelectors, MappingOk;
    UndoSelectorsBelow(Identity(nGroups), s + [j], nGroups);
  }

  lemma RowComplete(row: seq<nat>, curr: nat, inUse: seq<bool>)
    requires RowOk(row, AlphaSize(inUse)) && MappingOk(inUse) && 1 <= curr <= LONGEST
    ensures |row| + 1 >= AlphaSize(inUse) ==> |row + [curr]| == AlphaSize(inUse) && ValidLengths(row + [curr])
    ensures |row| + 1 < AlphaSize(inUse) ==> RowOk(row + [curr], AlphaSize(inUse))
  {
    hide UsedBytes;
    UsedAtMost(inUse, 256);
  }

  lemma Coding2Sound(h: Header, inUse: seq<bool>, nGroups: nat, selector: seq<nat>, lens: seq<seq<nat>>, row: seq<nat>,
      curr: nat, x: nat)
    requires Sound(Coding2(h, inUse, nGroups, selector, lens, row, curr))
    ensures Sound(AfterCoding2(h, inUse, nGroups, selector, lens, row, curr, x))
  {
    hide ValidLengths, StartSymbols, UsedBytes, RowOk;
    RowComplete(row, curr, inUse);
    if x == 0 && |row| + 1 >= AlphaSize(inUse) && |lens| + 1 >= nGroups {
      StartSymbolsSound(h, inUse, selector, lens + [row + [curr]]);
    }
  }

  lemma UsedAtMost(inUse: seq<bool>, k: nat)
    requires k <= |inUse| == 256
    ensures |UsedBytes(inUse, k)| <= k
  {
  }

  lemma StartSymbolsSound(h: Header, inUse: seq<bool>, selector: seq<nat>, lens: seq<seq<nat>>)
    requires HeaderOk(h) && MappingOk(inUse) && |lens| > 0 && AllBelow(selector, |lens|)
        && TablesOk(lens, AlphaSize(inUse))
    ensures Sound(StartSymbols(h, inUse, selector, lens))
  {
    hide ValidLengths, UsedBytes, BeginSymbol, Sound;
    UsedAtMost(inUse, 256);
    BeginSymbolSound(Body(h, UsedBytes(inUse, 256), selector, lens, -1, 0, 0, 0, Identity(256), [], 0, 1));
  }

  lemma BeginSymbolSound(b: Body)
    requires BodyOk(b) && (b.groupPos == 0 || b.groupNo >= 0)
    ensures Sound(BeginSymbol(b))
  {
    hide MinLen, ValidLengths;
    if b.groupPos == 0 {
      if b.groupNo + 1 < |b.selector| {
        ShortestInTable(b.(groupNo := b.groupNo + 1, groupPos := BZ_G_SIZE - 1));
      }
    } else {
      ShortestInTable(b);
    }
  }

  lemma ShortestInTable(b: Body)
    requires BodyOk(b) && 0 <= b.groupNo
    ensures 1 <= MinLen(Table(b)) <= LONGEST && |Table(b)| == |b.used| + 2
  {
    hide MinLen;
    MinMaxLen(Table(b));
  }

  lemma {:induction false} PermAtBelow(lens: seq<nat>, x: nat, k: nat)
    requires k <= |lens| && 0 < |lens|
    ensures PermAt(lens, x, k) < |lens|
  {
    hide PermSlot;
    if k > 0 {
      PermAtBelow(lens, x, k - 1);
    }
  }

  /** A symbol found is a symbol of the alphabet. */
  lemma FoundInAlphabet(b: Body)
    requires InSymbol(b)
    ensures var l := LookLens(Table(b), b.zn, b.zvec);
            l.Symbol? ==> 0 <= l.sym < |b.used| + 2
  {
    hide PermAt, LimitOf, BaseOf;
    ShortestInTable(b);
    var x := b.zvec - BaseOf(Table(b), b.zn);
    if 0 <= x {
      PermAtBelow(Table(b), x, |Table(b)|);
    }
  }

  lemma TakeSymbolSound(b: Body, s: int)
    requires BodyOk(b) && 0 <= s < |b.used| + 2
    ensures var t := TakeSymbol(b, s);
            match t
            case Again(c) => BodyOk(c) && c.groupNo == b.groupNo && c.groupPos == b.groupPos
            case Column(col) => |col| <= BLOCK_UNIT * b.h.level
            case Wrong(_) => true
  {
    hide ByteOf, ValidLengths;
  }

  lemma DecideSound(b: Body)
    requires InSymbol(b)
    ensures Sound(Decide(b))
  {
    hide BeginSymbol, TakeSymbol, LookLens, MinLen, TablesOk, AllBelow;
    FoundInAlphabet(b);
    var l := LookLens(Table(b), b.zn, b.zvec);
    MoreMeansShort(b);
    if l.Symbol? {
      TakeSymbolSound(b, l.sym);
      var t := TakeSymbol(b, l.sym);
      if t.Again? {
        BeginSymbolSound(t.b);
      }
    }
  }

  /** No more bits are asked for once a code has the longest length. */
  lemma MoreMeansShort(b: Body)
    ensures LookLens(Table(b), b.zn, b.zvec).More? ==> b.zn <= LONGEST
  {
  }

  /** Main result: every answer to a request leads to a sound state. */
  lemma ResumeSound(p: Parse, x: nat)
    requires Sound(p) && !Stopped(p) && x < Pow2(Need(p))
    ensures Sound(Resume(p, x))
  {
    hide SeekMapping, Decide, AfterSelector3, AfterCoding2, MinLen, UsedBytes, TablesOk, AllBelow, Table, ValidLengths;
    match p
    case Mapping1(h, inUse16) =>
      if |inUse16| == 15 { SeekMappingSound(h, inUse16 + [x == 1], []); }
    case Mapping2(h, inUse16, inUse) => SeekMappingSound(h, inUse16, inUse + [x == 1]);
    case Selector3(h, inUse, nGroups, nSelectors, s, j) => Selector3Sound(h, inUse, nGroups, nSelectors, s, j, x);
    case Coding1(h, inUse, _, _, _) => UsedAtMost(inUse, 256);
    case Coding2(h, inUse, nGroups, selector, lens, row, curr) =>
        Coding2Sound(h, inUse, nGroups, selector, lens, row, curr, x);
    case Coding3(h, inUse, _, _, _, _, _) => UsedAtMost(inUse, 256);
    case SymbolStart(b) => StillInSymbol(b, b.zn, x);
    case SymbolBit(b) => StillInSymbol(b, b.zn, 2 * b.zvec + x);
    case _ => HeaderStateSound(p, x);
  }

  lemma HeaderStateSound(p: Parse, x: nat)
    requires Sound(p) && !Stopped(p) && x < Pow2(Need(p))
    requires p.Magic? || p.BlkHdr? || p.BCrc? || p.RandBit? || p.OrigPtr? || p.Selector1? || p.Selector2? || p.EndHdr?
        || p.CCrc?
    ensures Sound(Resume(p, x))
  {
    hide UsedBytes;
  }

  lemma StillInSymbol(b: Body, zn: nat, zvec: nat)
    requires InSymbol(b) && zn == b.zn
    ensures Sound(Decide(b.(zvec := zvec)))
  {
    hide Decide, Sound;
    DecideSound(b.(zvec := zvec));
  }

  /** Main result: whatever the input, the machine stays sound, and every
      request is for 1 to 20 bits. */
  lemma {:induction false} RunSound(p: Parse, bits: seq<bool>)
    requires Sound(p)
    ensures Sound(Run(p, bits).0)
    ensures !Stopped(p) ==> 1 <= Need(p) <= 20
    decreases |bits|
  {
    hide Resume, Sound;
    if !Stopped(p) { RequestSize(p); }
    if !Stopped(p) && |bits| >= Need(p) {
      var x := Val(bits[..Need(p)]);
      ValBound(bits[..Need(p)]);
      ResumeSound(p, x);
      RunSound(Resume(p, x), bits[Need(p)..]);
    }
  }

  lemma RequestSize(p: Parse)
    requires Sound(p) && !Stopped(p)
    ensures 1 <= Need(p) <= 20
  {
    hide MinLen, TablesOk, AllBelow, Table;
    if p.SymbolStart? {
      ShortestInTable(p.b);
    }
  }
}
