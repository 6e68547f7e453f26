/** The arrays of DState that hold a block: first its last column, as the
    symbols are decoded, then the table that undoes the sort. */
module BlockStore {
  import opened Words
  import opened Counting
  import opened Mtf
  import opened MtfArray
  import opened MtfEncoder
  import opened InverseBwt
  import opened BwtStorage
  import opened DecoderMachine
  import opened Rle
  import opened StreamFuture

  datatype SymbolResult = More | Done | Fail(error: Error)

  /** Appending equal characters. */
  lemma {:induction false} CountRepeat(l: seq<byte>, c: byte, w: nat, d: nat)
    ensures CountEq(l + Repeat(c, w), d) == CountEq(l, d) + (if c == d then w else 0)
  {
    if w == 0 {
      assert l + Repeat(c, w) == l;
    } else {
      CountRepeat(l, c, w - 1, d);
      assert (l + Repeat(c, w))[..|l| + w - 1] == l + Repeat(c, w - 1);
    }
  }

  class Store {
    const nblockMAX: nat
    const smallDecompress: bool
    const fastList: FastList
    const unzftab: array<int>
    const cftab: array<int>
    const cftabCopy: array<int>
    const tt: array<nat>
    const ll16: array<nat>
    const ll4: array<nat>
    var seqToUnseq: seq<byte>
    var nblock: nat
    /** The run being read: one less than its length so far, and what the
        next digit weighs. */
    var es: int
    var N: nat
    var tPos: nat
    /** The last column so far, and the rows that are linked in SMALL form. */
    ghost var col: seq<byte>
    ghost var cycle: set<nat>

    ghost function Repr(): set<object> {
      {this, fastList, fastList.mtfa, fastList.mtfbase, unzftab, cftab, cftabCopy, tt, ll16, ll4}
    }

    ghost predicate Shape() {
      && 0 < nblockMAX <= MAX_BLOCK && fastList.mtfa.Length == MTFA_SIZE && fastList.mtfbase.Length == LISTS
      && unzftab.Length == 256 && cftab.Length == cftabCopy.Length == 257
      && unzftab != cftab && unzftab != cftabCopy && cftab != cftabCopy
      && unzftab != fastList.mtfbase && cftab != fastList.mtfbase && cftabCopy != fastList.mtfbase
      && tt != fastList.mtfa && ll16 != fastList.mtfa && ll4 != fastList.mtfa
      && tt != ll16 && tt != ll4 && ll16 != ll4
      && (if smallDecompress then ll16.Length == nblockMAX <= 2 * ll4.Length else tt.Length == nblockMAX)
    }

    ghost predicate Tidy()
      reads ll4
    {
      Shape() && AreBytes(ll4[..])
    }

    /** The arrays hold the last column so far. */
    ghost predicate Holding()
      reads this`col, this`nblock, tt, ll16, ll4
    {
      && Tidy() && |col| == nblock <= nblockMAX
      && (if smallDecompress then ll16[..nblock] == col else tt[..nblock] == col)
    }

    ghost predicate Counted()
      reads this`col, unzftab
    {
      unzftab.Length == 256 && forall c {:trigger unzftab[c]} :: 0 <= c < 256 ==> unzftab[c] == CountEq(col, c)
    }

    /** The store stands for what the machine's state says of the block. */
    ghost predicate Represents(b: Body)
      reads Repr()
    {
      && Holding() && Counted() && fastList.Valid()
      && col == b.col && fastList.list == b.list && es == b.w - 1 && N == b.n && seqToUnseq == b.used
      && nblockMAX == BLOCK_UNIT * b.h.level
    }

    constructor (level: nat, small: bool)
      requires 1 <= level <= 9
      ensures Tidy() && nblockMAX == BLOCK_UNIT * level && smallDecompress == small
      ensures fresh(Repr())
    {
      nblockMAX, smallDecompress := BLOCK_UNIT * level, small;
      var f := new FastList();
      var a, b, c := new int[256], new int[257], new int[257];
      fastList, unzftab, cftab, cftabCopy := f, a, b, c;
      var t := new nat[if small then 0 else BLOCK_UNIT * level];
      var p := new nat[if small then BLOCK_UNIT * level else 0];
      var q := new nat[if small then (1 + BLOCK_UNIT * level) / 2 else 0](_ => 0);
      tt, ll16, ll4 := t, p, q;
    }

    // ---------- the last column ----------

    /** The characters in use. */
    method MapBytes(inUse: seq<bool>)
      requires |inUse| == 256
      modifies this`seqToUnseq
      ensures seqToUnseq == UsedBytes(inUse, 256)
    {
      hide UsedBytes;
      var flags := new bool[256](i requires 0 <= i < 256 => inUse[i]);
      var table := new byte[256];
      var nInUse := MakeMapsD(flags, table);
      assert flags[..] == inUse;
      seqToUnseq := table[..nInUse];
    }

    /** What is set up before the first symbol of a block. */
    method Start(inUse: seq<bool>)
      requires Tidy() && |inUse| == 256
      modifies this, unzftab, fastList`list, fastList.mtfa, fastList.mtfbase
      ensures Holding() && Counted() && fastList.Valid() && col == [] && fastList.list == Identity(256)
      ensures es == -1 && N == 1 && seqToUnseq == UsedBytes(inUse, 256)
    {
      MapBytes(inUse);
      for i := 0 to 256
        invariant forall c :: 0 <= c < i ==> unzftab[c] == 0
        modifies unzftab
      {
        unzftab[i] := 0;
      }
      fastList.Init();
      nblock, es, N, col := 0, -1, 1, [];
    }

    method PutChar(uc: byte)
      requires Holding() && nblock < nblockMAX
      modifies this`nblock, this`col, tt, ll16
      ensures Holding() && col == old(col) + [uc]
    {
      if smallDecompress {
        ll16[nblock] := uc;
      } else {
        tt[nblock] := uc;
      }
      nblock := nblock + 1;
      col := col + [uc];
    }

    method CountRun(uc: byte, es: nat)
      requires Counted()
      modifies unzftab
      ensures unzftab.Length == 256 && forall c :: 0 <= c < 256 ==> unzftab[c] == CountEq(col + Repeat(uc, es), c)
    {
      hide CountEq;
      forall c | 0 <= c < 256
        ensures CountEq(col + Repeat(uc, es), c) == CountEq(col, c) + (if uc == c then es else 0)
      {
        CountRepeat(col, uc, es, c);
      }
      unzftab[uc] := unzftab[uc] + es;
    }

    /** The end of a run: its character is at the front of the list. */
    method FlushRun() returns (o: SymbolResult)
      requires Holding() && Counted() && fastList.Valid() && es >= -1
      modifies this`nblock, this`col, this`es, this`N, tt, ll16, unzftab
      ensures ghost var uc := ByteOf(seqToUnseq, fastList.list[0]);
              if CountEq(old(col), uc) + old(es) + 1 > INT_MAX then o == Fail(Undefined)
              else if |old(col)| + old(es) + 1 > nblockMAX then o == Fail(BadData)
              else
                && o == More && Holding() && Counted() && es == -1 && N == 1
                && col == old(col) + Repeat(uc, old(es) + 1)
    {
      hide CountEq, ByteOf;
      es := es + 1;
      var front := fastList.Front();
      var uc := ByteOf(seqToUnseq, front);
      if unzftab[uc] + es > INT_MAX {
        return Fail(Undefined);
      }
      CountRun(uc, es);
      ghost var w, col0 := es, col;
      while es > 0
        invariant 0 <= es <= w && Holding() && col == col0 + Repeat(uc, w - es)
        modifies this`nblock, this`col, this`es, tt, ll16
        decreases es
      {
        if nblock >= nblockMAX {
          return Fail(BadData);
        }
        PutChar(uc);
        assert Repeat(uc, w - es) + [uc] == Repeat(uc, w - (es - 1));
        es := es - 1;
      }
      es, N := -1, 1;
      o := More;
    }

    lemma RepresentsHolding(b: Body)
      requires Represents(b)
      ensures Holding() && Counted() && fastList.Valid()
    {
    }

    /** The position in the groups does not matter to the arrays. */
    lemma RepresentsSame(b: Body, c: Body)
      requires Represents(b) && c.h == b.h && c.col == b.col && c.list == b.list && c.w == b.w && c.n == b.n
          && c.used == b.used
      ensures Represents(c)
    {
    }

    /** An entry taken off the list is one more character. */
    method PutMoved(nn: nat)
      requires Holding() && Counted() && fastList.Valid() && nn < 256 && nblock < nblockMAX
      modifies this`nblock, this`col, tt, ll16, unzftab, fastList, fastList.mtfa, fastList.mtfbase
      ensures Holding() && Counted() && fastList.Valid()
      ensures fastList.list == MoveToFront(old(fastList.list), nn)
      ensures col == old(col) + [ByteOf(seqToUnseq, old(fastList.list)[nn])]
    {
      hide CountEq, ByteOf, MoveToFront;
      var uc := fastList.Decode(nn);
      var c := ByteOf(seqToUnseq, uc);
      assert Repeat(c, 1) == [c];
      CountRun(c, 1);
      PutChar(c);
    }

    /** Main result: the branches on nextSym do to the arrays what the machine
        does to the block. A run is ended by the symbol after it; ending an
        empty run does nothing. */
    method Symbol(s: nat, ghost b: Body) returns (o: SymbolResult)
      requires Represents(b) && s <= |b.used| + 1 && 0 < |b.used| <= 256
      modifies this`nblock, this`col, this`es, this`N, tt, ll16, unzftab, fastList, fastList.mtfa, fastList.mtfbase
      ensures match TakeSymbol(b, s)
              case Again(c) => o == More && Represents(c)
              case Column(l) => o == Done && Holding() && Counted() && col == l
              case Wrong(e) => o == Fail(e)
    {
      hide ByteOf, MoveToFront, CountEq;
      if s == RUNA || s == RUNB {
        if N >= LAST_WEIGHT {
          return Fail(Undefined);
        }
        es := es + (s + 1) * N;
        N := N * 2;
        return More;
      }
      o := FlushRun();
      if o.Fail? {
        return;
      }
      if s == |seqToUnseq| + 1 {
        return Done;
      }
      if nblock >= nblockMAX {
        return Fail(BadData);
      }
      PutMoved(s - 1);
      o := More;
    }

    // ---------- the inverse transform ----------

    /** k characters of the walk from origPtr have been read. */
    ghost predicate Reading(origPtr: nat, k: nat)
      reads this`col, this`cycle, this`tPos, tt, ll16, ll4, cftab
    {
      && Tidy() && origPtr < |col| <= nblockMAX
      && (if smallDecompress then
            && origPtr in cycle && CycleStored(ll16, ll4, col, cycle)
            && Totals() && tPos == Row(col, origPtr, k)
          else
            IsFastTable(tt[..], col) && tPos == Row(col, origPtr, k + 1))
    }

    /** cftab has the running totals of the character counts. */
    ghost predicate Totals()
      reads this`col, cftab
    {
      cftab.Length == 257 && forall c {:trigger cftab[c]} :: 0 <= c <= 256 ==> cftab[c] == CountLess(col, c)
    }

    /** From the counts of the last column to the table: the check on cftab
        never fails. */
    method Invert(origPtr: nat) returns (ok: bool)
      requires Holding() && Counted() && origPtr < nblock
      modifies this`tPos, this`cycle, tt, ll16, ll4, cftab, cftabCopy
      ensures ok && Reading(origPtr, 0)
    {
      hide CountEq, CountLess, Reading;
      ok := SetUpCftab(cftab, unzftab, nblock, col);
      if !ok {
        return;
      }
      if smallDecompress {
        LinkSmall(origPtr);
      } else {
        LinkFast(origPtr);
      }
    }

    method LinkSmall(origPtr: nat)
      requires Holding() && Totals() && origPtr < nblock && smallDecompress
      modifies this`tPos, this`cycle, ll16, ll4, cftabCopy
      ensures Reading(origPtr, 0)
    {
      hide CountLess, CycleStored, Links, Row, IsFastTable, Rank, Unrank, AreBytes, Holding, Totals;
      HoldingShape();
      RowStart(origPtr);
      ComputeMap();
      cycle := ReversePointers(ll16, ll4, origPtr, col);
      tPos := origPtr;
    }

    method ComputeMap()
      requires Holding() && Totals() && smallDecompress
      modifies ll16, ll4, cftabCopy
      ensures AreBytes(ll4[..])
      ensures forall x :: 0 <= x < |col| ==> Links(ll16[..], ll4[..])[x] == Rank(col, x)
    {
      hide CountLess, Links, Rank;
      assert forall x :: 0 <= x < nblock ==> ll16[x] == ll16[..nblock][x];
      ComputeT(ll16, ll4, cftab, cftabCopy, nblock, col);
    }

    lemma HoldingShape()
      requires Holding()
      ensures Tidy() && |col| == nblock <= nblockMAX
    {
    }

    lemma RowStart(origPtr: nat)
      requires origPtr < |col|
      ensures Row(col, origPtr, 0) == origPtr
    {
    }

    method LinkFast(origPtr: nat)
      requires Holding() && Totals() && origPtr < nblock && !smallDecompress
      modifies this`tPos, tt, cftab
      ensures Reading(origPtr, 0)
    {
      hide CountLess, IsFastTable, Rank, Unrank, Row;
      InvertFast(tt, cftab, nblock, col);
      FastReads(tt[..], col, origPtr, 0);
      tPos := tt[origPtr] / 256;
    }

    // ---------- reading through the table ----------

    /** The table read in FAST form, with the position in a local copy. */
    ghost predicate FastAt(origPtr: nat, k: nat, tPos: nat)
      reads this`col, tt
    {
      && !smallDecompress && Shape() && origPtr < |col| <= nblockMAX
      && IsFastTable(tt[..], col) && tPos == Row(col, origPtr, k + 1)
    }

    lemma ReadingIsTidy(origPtr: nat, k: nat)
      requires Reading(origPtr, k)
      ensures Tidy()
    {
    }

    lemma FastAtIsReading(origPtr: nat, k: nat)
      requires Reading(origPtr, k) && !smallDecompress
      ensures FastAt(origPtr, k, tPos) && Tidy()
    {
    }

    /** The local copy is written back. */
    method SetPos(tPos: nat, ghost origPtr: nat, ghost k: nat)
      requires FastAt(origPtr, k, tPos) && Tidy()
      modifies this`tPos
      ensures Reading(origPtr, k)
    {
      this.tPos := tPos;
    }

    /** BZ_GET_FAST_C. Its test for a tPos past the array never succeeds. */
    method GetFast(tPos: nat, ghost origPtr: nat, ghost k: nat) returns (c: byte, next: nat)
      requires FastAt(origPtr, k, tPos)
      ensures tPos < nblockMAX
      ensures FastAt(origPtr, k + 1, next) && c == WalkChar(col, origPtr, k)
    {
      hide IsFastTable, Row, WalkChar, BitAnd;
      FastReads(tt[..], col, origPtr, k);
      var word := tt[tPos];
      AndConstants(word);
      c := BitAnd(word, 0xff);
      next := word / 256;
    }

    /** BZ_GET_SMALL. Its test for a tPos past the array never succeeds. */
    method GetSmall(ghost origPtr: nat, ghost k: nat) returns (c: byte)
      requires Reading(origPtr, k) && smallDecompress
      modifies this`tPos
      ensures old(tPos) < nblockMAX
      ensures Reading(origPtr, k + 1) && c == WalkChar(col, origPtr, k)
    {
      hide CountLess, Rank, Unrank, OnCycle, GetLL;
      SmallReads(Links(ll16[..], ll4[..]), col, cycle, origPtr, k);
      c := IndexIntoF(tPos, cftab[..], col);
      tPos := GetLL(ll16[..], ll4[..], tPos);
    }

    /** The first character, read when the table is complete. */
    method First(ghost origPtr: nat) returns (c: byte)
      requires Reading(origPtr, 0)
      modifies this`tPos
      ensures Reading(origPtr, 1) && c == WalkChar(col, origPtr, 0)
    {
      hide IsFastTable, Row, WalkChar, CycleStored, Totals, AreBytes;
      if smallDecompress {
        c := GetSmall(origPtr, 0);
      } else {
        c, tPos := GetFast(tPos, origPtr, 0);
      }
    }

    /** All that is done between the last symbol and the first output. The
        check that Invert makes on cftab never fails. */
    method Undo(origPtr: nat) returns (k0: byte)
      requires Holding() && Counted() && origPtr < nblock
      modifies this`tPos, this`cycle, tt, ll16, ll4, cftab, cftabCopy
      ensures Reading(origPtr, 1) && Tidy() && k0 == WalkChar(col, origPtr, 0)
    {
      hide Reading, Holding, Counted, Tidy, WalkChar;
      HoldingShape();
      var _ := Invert(origPtr);
      k0 := First(origPtr);
      ReadingIsTidy(origPtr, 1);
    }

    /** Starts a run at the prefetched character k0, number nblockUsed - 1. */
    method FastRun(k0: byte, nblockUsed: nat, tPos: nat, ghost origPtr: nat)
        returns (len: nat, next: byte, used: nat, tPos': nat)
      requires origPtr < |col| == nblock && 1 <= nblockUsed <= nblock
      requires FastAt(origPtr, nblockUsed, tPos)
      requires k0 == WalkChar(col, origPtr, nblockUsed - 1)
      ensures NextRun(Walk(col, origPtr), nblock, nblockUsed) == OutRun(k0, len, used)
      ensures FastAt(origPtr, used, tPos') && (used <= nblock ==> next == WalkChar(col, origPtr, used - 1))
    {
      hide FastAt, WalkChar;
      var k1, pp: nat := k0, nblock + 1;
      len, next, used, tPos' := 1, k0, nblockUsed, tPos;
      k1, tPos' := GetFast(tPos', origPtr, used);
      used := used + 1;
      if k1 != k0 {
        next := k1;
        return;
      }
      if used == pp {
        return;
      }
      len := 2;
      k1, tPos' := GetFast(tPos', origPtr, used);
      used := used + 1;
      if used == pp {
        return;
      }
      if k1 != k0 {
        next := k1;
        return;
      }
      len := 3;
      k1, tPos' := GetFast(tPos', origPtr, used);
      used := used + 1;
      if used == pp {
        return;
      }
      if k1 != k0 {
        next := k1;
        return;
      }
      k1, tPos' := GetFast(tPos', origPtr, used);
      used := used + 1;
      len := k1 as int + 4;
      next, tPos' := GetFast(tPos', origPtr, used);
      used := used + 1;
    }

    /** The same in SMALL form, where the end of the block is tested first. */
    method SmallRun(k0: byte, nblockUsed: nat, ghost origPtr: nat) returns (len: nat, next: byte, used: nat)
      requires origPtr < |col| == nblock && 1 <= nblockUsed <= nblock
      requires Reading(origPtr, nblockUsed) && smallDecompress
      requires k0 == WalkChar(col, origPtr, nblockUsed - 1)
      modifies this`tPos
      ensures used > nblockUsed
      ensures NextRun(Walk(col, origPtr), nblock, nblockUsed) == OutRun(k0, len, used)
      ensures Reading(origPtr, used) && (used <= nblock ==> next == WalkChar(col, origPtr, used - 1))
    {
      hide Reading, WalkChar;
      var k1, pp: nat := k0, nblock + 1;
      len, next, used := 1, k0, nblockUsed;
      k1 := GetSmall(origPtr, used);
      used := used + 1;
      if used == pp {
        return;
      }
      if k1 != k0 {
        next := k1;
        return;
      }
      len := 2;
      k1 := GetSmall(origPtr, used);
      used := used + 1;
      if used == pp {
        return;
      }
      if k1 != k0 {
        next := k1;
        return;
      }
      len := 3;
      k1 := GetSmall(origPtr, used);
      used := used + 1;
      if used == pp {
        return;
      }
      if k1 != k0 {
        next := k1;
        return;
      }
      k1 := GetSmall(origPtr, used);
      used := used + 1;
      len := k1 as int + 4;
      next := GetSmall(origPtr, used);
      used := used + 1;
    }
  }
}
