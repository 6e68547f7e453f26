/** The decoder machine reads every section of a block back: one lemma per
    section, then the whole block. */
module ParseBlock {
  import opened Words
  import opened Mtf
  import opened MtfEncoder
  import opened DecoderMachine
  import opened BlockFormat

  /** One request answered from the front of the bits. */
  lemma RunField(p: Parse, x: nat, rest: seq<bool>)
    requires !Stopped(p) && Need(p) > 0 && x < Pow2(Need(p))
    ensures Run(p, ToBits(x, Need(p)) + rest) == Run(Resume(p, x), rest)
  {
    var n := Need(p);
    var s := ToBits(x, n) + rest;
    assert s[..n] == ToBits(x, n) && s[n..] == rest;
    ValToBits(x, n);
  }

  lemma RunByte(p: Parse, x: nat, rest: seq<bool>)
    requires !Stopped(p) && Need(p) == 8 && x < 256
    ensures Run(p, ToBits(x, 8) + rest) == Run(Resume(p, x), rest)
  {
    Pow2Values();
    RunField(p, x, rest);
  }

  lemma RunBit(p: Parse, x: bool, rest: seq<bool>)
    requires !Stopped(p) && Need(p) == 1
    ensures Run(p, [x] + rest) == Run(Resume(p, if x then 1 else 0), rest)
  {
    hide Resume;
    var v := if x then 1 else 0;
    assert Pow2(1) == 2;
    assert ToBits(v, 1) == [x] by {
      assert ToBits(v / 2, 0) == [];
    }
    RunField(p, v, rest);
  }

  // ---------- headers ----------

  lemma FieldsCons(x: nat, xs: seq<nat>, rest: seq<bool>)
    ensures ByteFields([x] + xs) + rest == ToBits(x, 8) + (ByteFields(xs) + rest)
  {
    assert ([x] + xs)[1..] == xs;
  }

  /** Answering a list of byte requests. */
  function ResumeAll(p: Parse, xs: seq<nat>): Parse
    decreases |xs|
  {
    if |xs| == 0 then p else ResumeAll(Resume(p, xs[0]), xs[1..])
  }

  ghost predicate AllBytes(p: Parse, xs: seq<nat>)
    decreases |xs|
  {
    |xs| == 0 || (!Stopped(p) && Need(p) == 8 && xs[0] < 256 && AllBytes(Resume(p, xs[0]), xs[1..]))
  }

  lemma {:induction false} RunBytes(p: Parse, xs: seq<nat>, rest: seq<bool>)
    requires AllBytes(p, xs)
    ensures Run(p, ByteFields(xs) + rest) == Run(ResumeAll(p, xs), rest)
    decreases |xs|
  {
    hide Resume, Run;
    if |xs| == 0 {
      assert ByteFields(xs) + rest == rest;
    } else {
      FieldsCons(xs[0], xs[1..], rest);
      assert [xs[0]] + xs[1..] == xs;
      RunByte(p, xs[0], ByteFields(xs[1..]) + rest);
      RunBytes(Resume(p, xs[0]), xs[1..], rest);
    }
  }

  lemma HeaderRead(level: nat, rest: seq<bool>)
    requires 1 <= level <= 9
    ensures Run(Magic(0), HeaderBits(level) + rest) == Run(BlkHdr(level, 0), rest)
  {
    hide Run;
    var xs := [0x42, 0x5a, 0x68, 0x30 + level];
    assert MAGIC + [0x30 + level] == xs;
    assert xs[1..] == [0x5a, 0x68, 0x30 + level] && xs[1..][1..] == [0x68, 0x30 + level]
        && xs[1..][1..][1..] == [0x30 + level];
    BytesFour(Magic(0), 0x42, 0x5a, 0x68, 0x30 + level);
    RunBytes(Magic(0), xs, rest);
  }

  /** Four requests in a row. */
  lemma BytesFour(p: Parse, a: nat, b: nat, c: nat, d: nat)
    requires a < 256 && b < 256 && c < 256 && d < 256
    requires !Stopped(p) && Need(p) == 8
    requires var q := Resume(p, a); !Stopped(q) && Need(q) == 8
    requires var q := Resume(Resume(p, a), b); !Stopped(q) && Need(q) == 8
    requires var q := Resume(Resume(Resume(p, a), b), c); !Stopped(q) && Need(q) == 8
    ensures AllBytes(p, [a, b, c, d])
    ensures ResumeAll(p, [a, b, c, d]) == Resume(Resume(Resume(Resume(p, a), b), c), d)
  {
    hide Resume;
    var q1 := Resume(p, a);
    var q2 := Resume(q1, b);
    var q3 := Resume(q2, c);
    assert [d][1..] == [] && [c, d][1..] == [d] && [b, c, d][1..] == [c, d] && [a, b, c, d][1..] == [b, c, d];
    assert AllBytes(Resume(q3, d), []);
    assert AllBytes(q3, [d]) && ResumeAll(q3, [d]) == Resume(q3, d);
    assert AllBytes(q2, [c, d]) && ResumeAll(q2, [c, d]) == Resume(q3, d);
    assert AllBytes(q1, [b, c, d]) && ResumeAll(q1, [b, c, d]) == Resume(q3, d);
  }

  /** The four stored bytes give the word back. */
  lemma Word32Read(u: nat)
    requires u < WORD
    ensures var xs := Word32Bytes(u);
            Shift8(Shift8(Shift8(Shift8(0, xs[0]), xs[1]), xs[2]), xs[3]) == u
    ensures forall i :: 0 <= i < 4 ==> Word32Bytes(u)[i] < 256
  {
    var xs := Word32Bytes(u);
    var r := u / 256;
    var q := r / 256;
    var p := q / 256;
    assert q == u / 0x1_0000 && p == u / 0x100_0000;
    assert xs == [p, q % 256, r % 256, u % 256];
    assert Shift8(0, p) == p;
    assert Shift8(p, q % 256) == q;
    assert Shift8(q, r % 256) == r;
    assert Shift8(r, u % 256) == u;
  }

  lemma CrcRead(level: nat, crc: nat, rest: seq<bool>)
    requires crc < WORD
    ensures Run(BCrc(level, 0, 0), ByteFields(Word32Bytes(crc)) + rest) == Run(RandBit(level, crc), rest)
  {
    hide Run, Shift8;
    var xs := Word32Bytes(crc);
    Word32Read(crc);
    BytesFour(BCrc(level, 0, 0), xs[0], xs[1], xs[2], xs[3]);
    assert xs == [xs[0], xs[1], xs[2], xs[3]];
    RunBytes(BCrc(level, 0, 0), xs, rest);
  }

  lemma CombinedCrcRead(level: nat, crc: nat, rest: seq<bool>)
    requires crc < WORD
    ensures Run(CCrc(level, 0, 0), ByteFields(Word32Bytes(crc)) + rest) == (Idle(crc), rest)
  {
    hide Shift8;
    var xs := Word32Bytes(crc);
    Word32Read(crc);
    BytesFour(CCrc(level, 0, 0), xs[0], xs[1], xs[2], xs[3]);
    assert xs == [xs[0], xs[1], xs[2], xs[3]];
    RunBytes(CCrc(level, 0, 0), xs, rest);
  }

  lemma {:induction false} BlockMagicRead(level: nat, k: nat, rest: seq<bool>)
    requires k < 6
    ensures Run(BlkHdr(level, k), ByteFields(BLOCK_MAGIC[k..]) + rest) == Run(BCrc(level, 0, 0), rest)
    decreases 6 - k
  {
    hide Run, ToBits, ByteFields;
    var x := BLOCK_MAGIC[k];
    FieldsCons(x, BLOCK_MAGIC[k + 1..], rest);
    assert [x] + BLOCK_MAGIC[k + 1..] == BLOCK_MAGIC[k..];
    RunByte(BlkHdr(level, k), x, ByteFields(BLOCK_MAGIC[k + 1..]) + rest);
    if k < 5 {
      BlockMagicRead(level, k + 1, rest);
    } else {
      NoFields(rest);
    }
  }

  lemma NoFields(rest: seq<bool>)
    ensures ByteFields([]) + rest == rest
  {
  }

  lemma {:induction false} EndMagicRead(level: nat, k: nat, rest: seq<bool>)
    requires k < 6
    ensures Run(if k == 0 then BlkHdr(level, 0) else EndHdr(level, k), ByteFields(END_MAGIC[k..]) + rest)
         == Run(CCrc(level, 0, 0), rest)
    decreases 6 - k
  {
    hide Run, ToBits, ByteFields;
    var x := END_MAGIC[k];
    FieldsCons(x, END_MAGIC[k + 1..], rest);
    assert [x] + END_MAGIC[k + 1..] == END_MAGIC[k..];
    RunByte(if k == 0 then BlkHdr(level, 0) else EndHdr(level, k), x, ByteFields(END_MAGIC[k + 1..]) + rest);
    if k < 5 {
      EndMagicRead(level, k + 1, rest);
    } else {
      NoFields(rest);
    }
  }

  lemma ThreeFields(a: nat, b: nat, c: nat, rest: seq<bool>)
    ensures ByteFields([a, b, c]) + rest == ToBits(a, 8) + (ToBits(b, 8) + (ToBits(c, 8) + rest))
  {
    hide ToBits, ByteFields;
    FieldsCons(a, [b, c], rest);
    FieldsCons(b, [c], rest);
    FieldsCons(c, [], rest);
    NoFields(rest);
    assert [a] + [b, c] == [a, b, c] && [b] + [c] == [b, c] && [c] + [] == [c];
  }

  /** A 24-bit field is three bytes. */
  lemma Field24(v: nat)
    requires v < 0x100_0000
    ensures ToBits(v, 24) == ByteFields([v / 0x1_0000, v / 256 % 256, v % 256])
  {
    hide ToBits, ByteFields, Val;
    var a, b, c := v / 0x1_0000, v / 256 % 256, v % 256;
    Pow2Values();
    var x, y, z := ToBits(a, 8), ToBits(b, 8), ToBits(c, 8);
    ThreeFields(a, b, c, []);
    assert y + (z + []) == y + z;
    assert ByteFields([a, b, c]) == x + (y + z) by {
      assert ByteFields([a, b, c]) + [] == ByteFields([a, b, c]);
    }
    ValConcat(x, y + z);
    ValConcat(y, z);
    ValToBits(a, 8);
    ValToBits(b, 8);
    ValToBits(c, 8);
    ValToBits(v, 24);
    ValInjective(x + (y + z), ToBits(v, 24));
  }

  lemma OrigPtrSteps(level: nat, crc: nat, a: nat, b: nat, c: nat)
    requires (a * 256 + b) * 256 + c <= 10 + BLOCK_UNIT * level
    ensures Resume(RandBit(level, crc), 0) == OrigPtr(level, crc, 0, 0)
    ensures Resume(OrigPtr(level, crc, 0, 0), a) == OrigPtr(level, crc, 1, a)
    ensures Resume(OrigPtr(level, crc, 1, a), b) == OrigPtr(level, crc, 2, a * 256 + b)
    ensures Resume(OrigPtr(level, crc, 2, a * 256 + b), c)
         == Mapping1(Header(level, crc, (a * 256 + b) * 256 + c), [])
  {
  }

  lemma OrigPtrRead(level: nat, crc: nat, ptr: nat, rest: seq<bool>)
    requires ptr < 0x100_0000 && ptr <= 10 + BLOCK_UNIT * level
    ensures Run(RandBit(level, crc), Bit(false) + (ToBits(ptr, 24) + rest))
         == Run(Mapping1(Header(level, crc, ptr), []), rest)
  {
    hide Run, ToBits, ByteFields, Resume;
    var a, b, c := ptr / 0x1_0000, ptr / 256 % 256, ptr % 256;
    var q := a * 256 + b;
    assert q * 256 + c == ptr;
    OrigPtrSteps(level, crc, a, b, c);
    RunBit(RandBit(level, crc), false, ToBits(ptr, 24) + rest);
    Field24(ptr);
    ThreeFields(a, b, c, rest);
    RunByte(OrigPtr(level, crc, 0, 0), a, ToBits(b, 8) + (ToBits(c, 8) + rest));
    RunByte(OrigPtr(level, crc, 1, a), b, ToBits(c, 8) + rest);
    RunByte(OrigPtr(level, crc, 2, q), c, rest);
  }

  // ---------- mapping ----------

  lemma {:induction false} Mapping1Read(h: Header, all: seq<bool>, i: nat, rest: seq<bool>)
    requires |all| == 16 && i < 16
    ensures Run(Mapping1(h, all[..i]), all[i..] + rest) == Run(SeekMapping(h, all, []), rest)
    decreases 16 - i
  {
    hide Run, SeekMapping;
    RunBit(Mapping1(h, all[..i]), all[i], all[i + 1..] + rest);
    assert all[i..] + rest == [all[i]] + (all[i + 1..] + rest);
    assert all[..i] + [all[i]] == all[..i + 1];
    if i < 15 {
      Mapping1Read(h, all, i + 1, rest);
    } else {
      assert all[..16] == all;
      assert all[16..] + rest == rest;
    }
  }

  /** The mapping bits still to be read when k entries are known. */
  function RowsFrom(inUse: seq<bool>, k: nat): seq<bool>
    requires |inUse| == 256 && k <= 256
  {
    if k % 16 == 0 then RowBits(inUse, k / 16)
    else inUse[k..k / 16 * 16 + 16] + RowBits(inUse, k / 16 + 1)
  }

  lemma {:induction false} Mapping2Read(h: Header, inUse: seq<bool>, k: nat, rest: seq<bool>)
    requires |inUse| == 256 && k <= 256 && (k % 16 != 0 ==> Row16(inUse, k / 16)) && |UsedBytes(inUse, 256)| > 0
    ensures Run(SeekMapping(h, InUse16(inUse), inUse[..k]), RowsFrom(inUse, k) + rest) == Run(Selector1(h, inUse), rest)
    decreases 256 - k
  {
    hide Run, UsedBytes, Row16, RowsFrom;
    if k == 256 {
      assert inUse[..k] == inUse;
      NoRows(inUse, rest);
    } else if k % 16 == 0 && !Row16(inUse, k / 16) {
      SkipRow(inUse, k);
      assert SeekMapping(h, InUse16(inUse), inUse[..k]) == SeekMapping(h, InUse16(inUse), inUse[..k + 16]);
      Mapping2Read(h, inUse, k + 16, rest);
    } else {
      RowsNext(inUse, k);
      Mapping2Step(h, inUse, k, rest);
      Mapping2Read(h, inUse, k + 1, rest);
    }
  }

  lemma Mapping2Step(h: Header, inUse: seq<bool>, k: nat, rest: seq<bool>)
    requires |inUse| == 256 && k < 256 && (k % 16 != 0 || Row16(inUse, k / 16))
    requires RowsFrom(inUse, k) == [inUse[k]] + RowsFrom(inUse, k + 1)
    ensures Run(SeekMapping(h, InUse16(inUse), inUse[..k]), RowsFrom(inUse, k) + rest)
         == Run(SeekMapping(h, InUse16(inUse), inUse[..k + 1]), RowsFrom(inUse, k + 1) + rest)
  {
    hide Run, UsedBytes, Row16, RowsFrom;
    assert SeekMapping(h, InUse16(inUse), inUse[..k]) == Mapping2(h, InUse16(inUse), inUse[..k]);
    RunBit(Mapping2(h, InUse16(inUse), inUse[..k]), inUse[k], RowsFrom(inUse, k + 1) + rest);
    assert inUse[..k] + [inUse[k]] == inUse[..k + 1];
    assert RowsFrom(inUse, k) + rest == [inUse[k]] + (RowsFrom(inUse, k + 1) + rest);
  }

  lemma NoRows(inUse: seq<bool>, rest: seq<bool>)
    requires |inUse| == 256
    ensures RowsFrom(inUse, 256) + rest == rest
  {
  }

  lemma SkipRow(inUse: seq<bool>, k: nat)
    requires |inUse| == 256 && k < 256 && k % 16 == 0 && !Row16(inUse, k / 16)
    ensures inUse[..k] + Repeat(false, 16) == inUse[..k + 16]
    ensures RowsFrom(inUse, k) == RowsFrom(inUse, k + 16)
  {
    forall i | k <= i < k + 16 ensures inUse[i] == false {
      assert inUse[k..k + 16][i - k] == inUse[i];
    }
  }

  lemma RowsShape(inUse: seq<bool>, k: nat)
    requires |inUse| == 256 && k < 256 && Row16(inUse, k / 16)
    ensures RowsFrom(inUse, k) == inUse[k..k / 16 * 16 + 16] + RowBits(inUse, k / 16 + 1)
  {
    hide Row16;
  }

  lemma NextInRow(k: nat)
    ensures (k + 1) / 16 == if (k + 1) % 16 == 0 then k / 16 + 1 else k / 16
    ensures (k + 1) % 16 == 0 ==> k + 1 == k / 16 * 16 + 16
  {
  }

  lemma RowsNext(inUse: seq<bool>, k: nat)
    requires |inUse| == 256 && k < 256 && Row16(inUse, k / 16)
    ensures RowsFrom(inUse, k) == [inUse[k]] + RowsFrom(inUse, k + 1)
    ensures (k + 1) % 16 != 0 ==> (k + 1) / 16 == k / 16
  {
    hide Row16, RowBits;
    RowsShape(inUse, k);
    NextInRow(k);
    var m := k / 16 * 16 + 16;
    assert inUse[k..m] == [inUse[k]] + inUse[k + 1..m];
    if (k + 1) % 16 == 0 {
      assert inUse[k + 1..m] == [];
    }
  }

  lemma MappingRead(h: Header, inUse: seq<bool>, rest: seq<bool>)
    requires |inUse| == 256 && |UsedBytes(inUse, 256)| > 0
    ensures Run(Mapping1(h, []), MappingBits(inUse) + rest) == Run(Selector1(h, inUse), rest)
  {
    hide Run, SeekMapping, RowBits, Row16, UsedBytes, InUse16;
    var all := InUse16(inUse);
    Mapping1Read(h, all, 0, RowBits(inUse, 0) + rest);
    assert all[..0] == [] && all[0..] == all && inUse[..0] == [];
    assert MappingBits(inUse) + rest == all + (RowBits(inUse, 0) + rest);
    Mapping2Read(h, inUse, 0, rest);
  }
}
