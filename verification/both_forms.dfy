/** The two forms of the decompressor beside each other: when they write the
    same bytes, and a stream on which they do not. */
module BothForms {
  import opened Words
  import opened InverseBwt
  import opened Mtf
  import opened Crc
  import opened Rle
  import opened BzStream
  import opened BitIO
  import opened DecoderMachine
  import opened BlockFormat
  import opened ParseTables
  import opened BlockRoundTrip
  import opened StreamFuture
  import opened Outcome
  import opened Decompressor
  import opened Piecewise
  import opened UndefinedInputs

  /** The outcome of a whole input. */
  ghost function OutcomeOfBytes(tab: seq<nat>, input: seq<byte>): (seq<byte>, Verdict)
    requires IsTable(tab)
  {
    OutcomeOf(tab, Between(Magic(0), 0, []), BytesToBits(input))
  }

  method DecompressNew(tab: seq<nat>, small: bool, pieces: seq<seq<byte>>, room: nat)
      returns (strm: Stream, code: Code, ghost lost: seq<byte>)
    requires IsTable(tab) && 0 < room < WORD
    ensures var outcome := OutcomeOfBytes(tab, Joined(pieces));
            && code == CodeOf(outcome.1) && strm.nextOut + lost == outcome.0
            && (lost != [] <==> outcome.1 == CutShort && !small)
  {
    hide DState.Inner, OutcomeOf, Joined, IsTable, BytesToBits;
    strm := new Stream();
    var d := new DState(strm, tab, small);
    NoBits();
    Waits(d);
    ghost var out;
    code, out, lost := DecompressPieces(d, pieces, room);
    assert [] + out == out;
  }

  /** Main result: given one input in any two ways of cutting it, with any two
      sizes of room, both forms end with the same code; they have written the
      same bytes if and only if no block is cut short, and otherwise the SMALL
      form has written what the FAST form has, and more. */
  method DecompressBoth(tab: seq<nat>, pieces: seq<seq<byte>>, room: nat, others: seq<seq<byte>>, otherRoom: nat)
      returns (fast: Stream, small: Stream, codeFast: Code, codeSmall: Code)
    requires IsTable(tab) && 0 < room < WORD && 0 < otherRoom < WORD && Joined(pieces) == Joined(others)
    ensures codeFast == codeSmall && fast.nextOut <= small.nextOut
    ensures fast.nextOut == small.nextOut <==> OutcomeOfBytes(tab, Joined(pieces)).1 != CutShort
    ensures small.nextOut == OutcomeOfBytes(tab, Joined(pieces)).0
    ensures codeFast == CodeOf(OutcomeOfBytes(tab, Joined(pieces)).1)
  {
    hide OutcomeOfBytes, Joined, IsTable;
    ghost var lostFast, lostSmall;
    fast, codeFast, lostFast := DecompressNew(tab, false, pieces, room);
    small, codeSmall, lostSmall := DecompressNew(tab, true, others, otherRoom);
    assert small.nextOut + [] == small.nextOut && fast.nextOut + [] == fast.nextOut;
  }

  /** A block is cut short if and only if its last characters are four equal
      ones that make a run, with the count missing. */
  lemma CutShortExactly(tab: seq<nat>, h: Header, col: seq<byte>, combined: nat, rest: seq<bool>)
    requires IsTable(tab) && combined < WORD && h.origPtr < |col|
    ensures var src := Walk(col, h.origPtr);
            !AtOutput(h, col, combined, rest).well <==> StateAfter(Chars(src, |col|, 0), FRESH).n == 4
    ensures !AtOutput(h, col, combined, rest).well ==>
              Ends(tab, AtOutput(h, col, combined, rest), AtOutput(h, col, combined, rest).rem, CutShort)
  {
    hide StateAfter, Expand, WalkChar, Remaining;
    RunsAreExpansion(Walk(col, h.origPtr), |col|, 1);
    if !AtOutput(h, col, combined, rest).well {
      BadBlockEnds(tab, AtOutput(h, col, combined, rest));
    }
  }

  // ---------- a stream on which they differ ----------

  /** Bits in bytes, the last one filled with zeros. */
  function Packed(bits: seq<bool>): seq<byte>
    decreases |bits|
  {
    if |bits| == 0 then []
    else if |bits| <= 8 then
      ByteBound(bits + Repeat(false, 8 - |bits|));
      [Val(bits + Repeat(false, 8 - |bits|))]
    else
      ByteBound(bits[..8]);
      [Val(bits[..8])] + Packed(bits[8..])
  }

  lemma ByteBound(bits: seq<bool>)
    requires |bits| == 8
    ensures Val(bits) < 256
  {
    ValBound(bits);
    Pow2Values();
  }

  lemma {:induction false} PackedBits(bits: seq<bool>) returns (pad: seq<bool>)
    ensures BytesToBits(Packed(bits)) == bits + pad
    decreases |bits|
  {
    hide BytesToBits, Val, ToBits, Packed, Repeat;
    PackedStep(bits);
    if |bits| == 0 {
      NoBits();
      pad := [];
    } else if |bits| <= 8 {
      pad := Repeat(false, 8 - |bits|);
      PackedByte(bits + pad);
    } else {
      pad := PackedBits(bits[8..]);
      PackedByte(bits[..8]);
      BytesToBitsConcat([Val(bits[..8])], Packed(bits[8..]));
      assert bits == bits[..8] + bits[8..];
    }
  }

  lemma PackedStep(bits: seq<bool>)
    ensures |bits| == 0 ==> Packed(bits) == []
    ensures 0 < |bits| <= 8 ==> Packed(bits) == [Val(bits + Repeat(false, 8 - |bits|))]
    ensures |bits| > 8 ==> Packed(bits) == [Val(bits[..8])] + Packed(bits[8..])
  {
    hide Val, Repeat;
  }

  lemma PackedByte(bits: seq<bool>)
    requires |bits| == 8
    ensures Val(bits) < 256 && BytesToBits([Val(bits)]) == bits
  {
    hide BytesToBits, Val;
    ByteBound(bits);
    OneByte(Val(bits));
    ToBitsVal(bits);
  }

  /** A block of four equal characters, the count of which is missing: two
      digits and the end. */
  const SHORT_BLOCK: seq<nat> := [RUNB, RUNA, 3]

  const FOUR: seq<byte> := [0, 0, 0, 0]

  lemma ShortBlockRead(pad: seq<bool>)
    ensures FlatBlock(SHORT_BLOCK)
    ensures Run(Magic(0), FlatInput(SHORT_BLOCK) + pad) == (Output(HEADER, FOUR), pad)
  {
    hide Run, FlatInput, EndsOnce, SymbolBits, BeginSymbol, FinalColumn, FinishBlock;
    var syms := SHORT_BLOCK;
    FlatRead(syms);
    FlatStart(syms);
    FourColumn();
    SymbolsRead(FLAT_BODY, syms, 0, []);
    NothingAfter(FLAT_BODY, syms, 0);
    FourStops();
    RunSplit(Magic(0), FlatInput(syms), pad);
    RunStopped(Output(HEADER, FOUR), [] + pad);
    assert [] + pad == pad;
  }

  lemma FourStops()
    ensures FinishBlock(HEADER, FOUR) == Output(HEADER, FOUR)
    ensures Run(Output(HEADER, FOUR), []) == (Output(HEADER, FOUR), [])
  {
  }

  lemma FourColumn()
    ensures FlatBlock(SHORT_BLOCK) && EndsOnce(FLAT_BODY, SHORT_BLOCK) && FinalColumn(FLAT_BODY, SHORT_BLOCK, 0) == FOUR
  {
    hide EndsOnce;
    FlatStart(SHORT_BLOCK);
    var list := Identity(256);
    assert SHORT_BLOCK[0..2] == [RUNB, RUNA] && [RUNB, RUNA][1..] == [RUNA] && [RUNA][1..] == [];
    assert Decode(list, 4, 4, []) == Repeat(list[0], 4);
    assert Decode(list, 2, 2, [RUNA]) == Decode(list, 4, 4, []);
    assert Decode(list, 0, 1, [RUNB, RUNA]) == Decode(list, 2, 2, [RUNA]);
    assert MapBytes([0, 1], Repeat(list[0], 4)) == FOUR;
  }

  /** The walk over four equal characters reads nothing else. */
  lemma FourWalk(k: nat)
    ensures WalkChar(FOUR, 0, k) == 0
  {
    hide Row;
    var x := Row(FOUR, 0, k + 1);
    assert FOUR[x] == 0;
  }

  lemma FourRuns()
    ensures !EndsWell(Walk(FOUR, 0), 4, 1) && Remaining(Walk(FOUR, 0), 4, 1) == FOUR
  {
    hide WalkChar;
    var src := Walk(FOUR, 0);
    forall k: nat ensures src(k) == 0 { FourWalk(k); }
    assert NextRun(src, 4, 1) == OutRun(0, 4, 6);
    assert Remaining(src, 4, 6) == [];
  }

  /** The outcome of the stream, whatever follows it. */
  lemma ShortOutcome(tab: seq<nat>, more: seq<bool>)
    requires IsTable(tab)
    ensures FlatBlock(SHORT_BLOCK)
    ensures OutcomeOf(tab, Between(Magic(0), 0, []), FlatInput(SHORT_BLOCK) + more) == (FOUR, CutShort)
  {
    hide Run, FlatInput, Remaining, EndsWell, CrcOf, Future, FutureOutput, WalkChar;
    ShortBlockRead(more);
    FourRuns();
    InputLong();
    var bits := FlatInput(SHORT_BLOCK) + more;
    CutShortFuture(tab, Magic(0), 0, bits, HEADER, FOUR, more);
    assert [] + bits == bits;
  }

  lemma CutShortFuture(tab: seq<nat>, p: Parse, combined: nat, bits: seq<bool>, h: Header, col: seq<byte>,
      rest: seq<bool>)
    requires IsTable(tab) && combined < WORD && h.origPtr < |col| && |rest| < |bits|
    requires Run(p, bits) == (Output(h, col), rest) && !EndsWell(Walk(col, h.origPtr), |col|, 1)
    ensures Future(tab, p, combined, bits) == (Remaining(Walk(col, h.origPtr), |col|, 1), CutShort)
  {
    hide Run, Remaining, EndsWell, CrcOf, WalkChar;
  }

  lemma InputLong()
    ensures FlatBlock(SHORT_BLOCK) && |FlatInput(SHORT_BLOCK)| > 0
  {
    hide Opening, SymbolBits, UnaryAll, FlatTables;
    FourColumn();
    assert |ToBits(2, 3)| == 3;
  }

  /** The failing input: both forms end with DATA_ERROR, the SMALL form has
      written the four characters, and the FAST form has not. */
  method FormsDiffer(tab: seq<nat>) returns (fast: Stream, small: Stream, codeFast: Code, codeSmall: Code)
    requires IsTable(tab)
    ensures codeFast == codeSmall == DATA_ERROR
    ensures small.nextOut == FOUR && fast.nextOut < FOUR
  {
    hide IsTable, OutcomeOf, FlatInput, Packed;
    FourColumn();
    var input := Packed(FlatInput(SHORT_BLOCK));
    ghost var pad := PackedBits(FlatInput(SHORT_BLOCK));
    ShortOutcome(tab, pad);
    OnePiece(input);
    fast, small, codeFast, codeSmall := DecompressBoth(tab, [input], 4, [input], 4);
  }

  lemma OnePiece(input: seq<byte>)
    ensures Joined([input]) == input
  {
    assert [input][1..] == [];
    assert input + Joined([]) == input;
  }
}
