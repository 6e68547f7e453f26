/** Bit packing, most significant bit first: the compressor's bsBuff keeps its
    live bits at the top of the word, the decompressor's at the bottom. */
module BitIO {
  import opened Words
  import opened BzStream

  // ---------- writing ----------

  /** The top |pending| bits of the buffer are pending, the rest are clear. */
  ghost predicate TopBits(bsBuff: nat, pending: seq<bool>) {
    |pending| <= 32 && bsBuff == Val(pending) * Pow2(32 - |pending|)
  }

  lemma Distribute(h: nat, p: nat, t: nat, q: nat)
    ensures (h * p + t) * q == h * (p * q) + t * q
  {
  }

  lemma TopByteArithmetic(h: nat, t: nat, p: nat, q: nat)
    requires h < 256 && t < p && q > 0 && p * q == 0x100_0000
    ensures var w := (h * p + t) * q;
            w / 0x100_0000 == h && w * 256 % WORD == t * (256 * q)
  {
    var low := t * q;
    Distribute(h, p, t, q);
    MulLess(t, p, q);
    var w := h * 0x100_0000 + low;
    DivModUnique(w, 0x100_0000, h, low);
    DivModUnique(w * 256, WORD, h, low * 256);
    assert low * 256 == t * (256 * q);
  }

  /** Taking the top byte. */
  lemma TopByte(bsBuff: nat, pending: seq<bool>)
    requires TopBits(bsBuff, pending) && |pending| >= 8
    ensures bsBuff / 0x100_0000 < 256 && ToBits(bsBuff / 0x100_0000, 8) == pending[..8]
    ensures TopBits(bsBuff * 256 % WORD, pending[8..])
  {
    hide Pow2, Val, ToBits;
    var m, h, t := |pending|, Val(pending[..8]), Val(pending[8..]);
    ValSplit(pending, 8);
    ValBound(pending[..8]);
    ValBound(pending[8..]);
    ToBitsVal(pending[..8]);
    Pow2Values();
    Pow2Add(m - 8, 32 - m);
    Pow2Add(8, 32 - m);
    TopByteArithmetic(h, t, Pow2(m - 8), Pow2(32 - m));
  }

  lemma FieldArithmetic(a: nat, p: nat, v: nat, q: nat)
    requires v < p
    ensures (a * p + v) * q == a * (p * q) + v * q && v * q + q <= p * q
  {
    Distribute(a, p, v, q);
    MulLess(v, p, q);
  }

  /** Or-ing a field in below the pending bits. */
  lemma FieldAdded(bsBuff: nat, pending: seq<bool>, n: nat, v: nat)
    requires TopBits(bsBuff, pending) && |pending| + n <= 32 && v < Pow2(n)
    ensures v * Pow2(32 - |pending| - n) < WORD
    ensures TopBits(BitOr(bsBuff, v * Pow2(32 - |pending| - n)), pending + ToBits(v, n))
  {
    hide BitOr, Pow2, Val, ToBits;
    var m := |pending|;
    var k := 32 - m - n;
    ValConcat(pending, ToBits(v, n));
    ValToBits(v, n);
    Pow2Values();
    Pow2Add(n, k);
    FieldArithmetic(Val(pending), Pow2(n), v, Pow2(k));
    OrIsAdd(Val(pending), n + k, v * Pow2(k));
    Pow2Monotone(n + k, 32);
  }

  /** Zeros below the pending bits are as good as pending. */
  lemma PadPending(bsBuff: nat, pending: seq<bool>, pad: seq<bool>)
    requires TopBits(bsBuff, pending) && |pending| + |pad| <= 32 && forall i :: 0 <= i < |pad| ==> !pad[i]
    ensures TopBits(bsBuff, pending + pad)
  {
    hide Pow2, Val;
    ZeroVal(pad);
    ValConcat(pending, pad);
    Pow2Add(|pad|, 32 - |pending| - |pad|);
    Distribute(Val(pending), Pow2(|pad|), 0, Pow2(32 - |pending| - |pad|));
  }

  lemma {:induction false} ZeroVal(pad: seq<bool>)
    requires forall i :: 0 <= i < |pad| ==> !pad[i]
    ensures Val(pad) == 0
  {
    if |pad| > 0 {
      ZeroVal(pad[..|pad| - 1]);
    }
  }

  lemma OneByte(c: byte)
    ensures BytesToBits([c]) == ToBits(c, 8)
  {
    hide ToBits;
    assert BytesToBits([]) + ToBits(c, 8) == ToBits(c, 8);
  }

  class BitWriter {
    var bsBuff: nat
    var bsLive: int
    var zbits: seq<byte>
    /** The bytes drained before zbits was last restarted, and every bit
        written so far. */
    ghost var sent: seq<byte>
    ghost var bits: seq<bool>

    /** The bits not yet in bytes, live of them, are at the top of bsBuff. */
    ghost predicate Holds(live: int)
      reads this
    {
      && 0 <= live <= 32 && |bits| == 8 * |sent + zbits| + live
      && BytesToBits(sent + zbits) == bits[..8 * |sent + zbits|]
      && TopBits(bsBuff, bits[8 * |sent + zbits|..])
    }

    ghost predicate Valid()
      reads this
    {
      Holds(bsLive)
    }

    /** BZ2_bsInitWrite. */
    constructor ()
      ensures Valid() && bits == [] && zbits == [] && sent == []
    {
      bsBuff, bsLive, zbits, sent, bits := 0, 0, [], [], [];
    }

    /** Sends the top byte of the buffer: the body of the loops. The last byte
        may hold padding. */
    method SendByte(ghost padding: nat)
      requires Holds(bsLive + padding) && bsLive + padding >= 8
      modifies this`bsBuff, this`bsLive, this`zbits
      ensures Holds(bsLive + padding) && bsLive == old(bsLive) - 8 && |zbits| == old(|zbits|) + 1 && old(zbits) <= zbits
    {
      hide TopBits, Val, Pow2, ToBits, BytesToBits;
      ghost var n := 8 * |sent + zbits|;
      TopByte(bsBuff, bits[n..]);
      Pow2Values();
      var c: byte := bsBuff / 0x100_0000;
      BytesToBitsConcat(sent + zbits, [c]);
      OneByte(c);
      assert sent + (zbits + [c]) == (sent + zbits) + [c];
      assert bits[..n + 8] == bits[..n] + bits[n..][..8];
      assert bits[n..][8..] == bits[n + 8..];
      zbits := zbits + [c];
      bsBuff := bsBuff * 256 % WORD;
      bsLive := bsLive - 8;
    }

    method NeedW()
      requires Valid()
      modifies this`bsBuff, this`bsLive, this`zbits
      ensures Valid() && bsLive < 8 && old(zbits) <= zbits
    {
      while bsLive >= 8
        invariant Valid() && old(zbits) <= zbits
        decreases bsLive
      {
        SendByte(0);
      }
    }

    /** Main result: a field is appended to the bits written. */
    method BsW(n: nat, v: nat)
      requires Valid() && n <= 24 && v < Pow2(n)
      modifies this
      ensures Valid() && sent == old(sent) && old(zbits) <= zbits && bits == old(bits) + ToBits(v, n)
    {
      hide TopBits, Pow2, ToBits, BytesToBits, BitOr;
      NeedW();
      ghost var k := 8 * |sent + zbits|;
      FieldAdded(bsBuff, bits[k..], n, v);
      bsBuff := BitOr(bsBuff, v * Pow2(32 - bsLive - n));
      bsLive := bsLive + n;
      bits := bits + ToBits(v, n);
      assert bits[k..] == old(bits)[k..] + ToBits(v, n) && bits[..k] == old(bits)[..k];
    }

    /** The block's bytes are drained before the next block: numZ restarts. */
    method Restart()
      requires Valid()
      modifies this`zbits, this`sent
      ensures Valid() && zbits == [] && sent == old(sent + zbits)
    {
      sent := sent + zbits;
      zbits := [];
      assert sent + zbits == old(sent + zbits);
    }

    /** All bits are in bytes. bsLive may have gone below zero. */
    ghost predicate Finished()
      reads this
    {
      bsLive <= 0 && BytesToBits(sent + zbits) == bits
    }

    /** Every bit is in a byte or still held. */
    lemma Size()
      requires Valid()
      ensures 8 * |sent + zbits| <= |bits| <= 8 * |sent + zbits| + 32
    {
    }

    lemma FinishedSize()
      requires Finished()
      ensures |bits| == 8 * |sent + zbits|
    {
    }

    ghost method PadToByte() returns (pad: seq<bool>)
      requires Valid()
      modifies this`bits
      ensures Holds(bsLive + |pad|) && (bsLive + |pad|) % 8 == 0
      ensures bits == old(bits) + pad && |pad| < 8 && forall i :: 0 <= i < |pad| ==> !pad[i]
    {
      hide TopBits, BytesToBits;
      var k := 8 * |sent + zbits|;
      pad := seq((8 - bsLive % 8) % 8, _ => false);
      PadPending(bsBuff, bits[k..], pad);
      bits := bits + pad;
      assert bits[k..] == old(bits)[k..] + pad && bits[..k] == old(bits)[..k];
    }

    /** Main result: the pending bits are sent, padded with zeros. */
    method FinishWrite() returns (ghost pad: seq<bool>)
      requires Valid()
      modifies this
      ensures Finished() && sent == old(sent) && old(zbits) <= zbits
      ensures bits == old(bits) + pad && |pad| < 8 && forall i :: 0 <= i < |pad| ==> !pad[i]
    {
      hide TopBits, BytesToBits;
      pad := PadToByte();
      while bsLive > 0
        invariant Holds(bsLive + |pad|) && (bsLive + |pad|) % 8 == 0 && old(zbits) <= zbits
        modifies this`bsBuff, this`bsLive, this`zbits
        decreases bsLive
      {
        SendByte(|pad|);
      }
      assert bits[..|bits|] == bits;
    }
  }

  // ---------- reading ----------

  /** The low |held| bits of the buffer; what is above them is stale. */
  ghost predicate LowBits(bsBuff: nat, held: seq<bool>) {
    |held| <= 32 && bsBuff < WORD && bsBuff % Pow2(|held|) == Val(held)
  }

  lemma RefillArithmetic(w: nat, c: byte, p: nat, k: nat)
    requires p > 0 && p * k == 0x100_0000
    ensures w * 256 % WORD == w % 0x100_0000 * 256
    ensures (w % 0x100_0000 * 256 + c) % (256 * p) == 256 * (w % p) + c
  {
    var h, l := w / 0x100_0000, w % 0x100_0000;
    DivModUnique(w * 256, WORD, h, l * 256);
    var y, v := l / p, l % p;
    assert l == y * p + v;
    assert w == h * (p * k) + (y * p + v);
    assert h * (p * k) == (h * k) * p;
    Distribute(h * k, 1, y, p);
    DivModUnique(w, p, h * k + y, v);
    assert 256 * (y * p) == y * (256 * p);
    DivModUnique(l * 256 + c, 256 * p, y, 256 * v + c);
  }

  /** Shifting in one byte of input. */
  lemma Refilled(bsBuff: nat, held: seq<bool>, c: byte)
    requires LowBits(bsBuff, held) && |held| <= 24
    ensures LowBits(BitOr(bsBuff * 256 % WORD, c), held + ToBits(c, 8))
  {
    hide BitOr, Pow2, Val, ToBits;
    Pow2Values();
    Pow2Add(|held|, 24 - |held|);
    Pow2Add(8, |held|);
    ValConcat(held, ToBits(c, 8));
    ValToBits(c, 8);
    RefillArithmetic(bsBuff, c, Pow2(|held|), Pow2(24 - |held|));
    OrIsAdd(bsBuff % 0x100_0000, 8, c);
  }

  lemma TakeArithmetic(w: nat, x: nat, y: nat, n: nat, q: nat)
    requires n > 0 && q > 0 && x < n && y < q && w % (n * q) == x * q + y
    ensures w / q % n == x && w % q == y
  {
    var a := w / (n * q);
    assert w == a * (n * q) + (x * q + y);
    Distribute(a, n, x, q);
    DivModUnique(w, q, a * n + x, y);
    DivModUnique(a * n + x, n, a, x);
  }

  /** The expression of GET_BITS: shift down and mask. */
  function Field(bsBuff: nat, bsLive: nat, n: nat): nat
    requires n <= bsLive
  {
    BitAnd(bsBuff / Pow2(bsLive - n), Pow2(n) - 1)
  }

  lemma FieldIs(bsBuff: nat, bsLive: nat, n: nat)
    requires n <= bsLive
    ensures Field(bsBuff, bsLive, n) == bsBuff / Pow2(bsLive - n) % Pow2(n)
  {
    hide BitAnd, Pow2;
    AndMask(bsBuff / Pow2(bsLive - n), n);
  }

  /** Taking n bits off the top of the live ones. */
  lemma Taken(bsBuff: nat, held: seq<bool>, n: nat)
    requires LowBits(bsBuff, held) && n <= |held|
    ensures Field(bsBuff, |held|, n) == Val(held[..n])
    ensures LowBits(bsBuff, held[n..])
  {
    hide Field, Pow2, Val;
    ValSplit(held, n);
    ValBound(held[..n]);
    ValBound(held[n..]);
    Pow2Add(n, |held| - n);
    TakeArithmetic(bsBuff, Val(held[..n]), Val(held[n..]), Pow2(n), Pow2(|held| - n));
    FieldIs(bsBuff, |held|, n);
  }

  class BitReader {
    const strm: Stream
    var bsBuff: nat
    var bsLive: nat
    ghost var held: seq<bool>

    ghost predicate InStep()
      reads this
    {
      |held| == bsLive && LowBits(bsBuff, held)
    }

    ghost predicate Valid()
      reads this, strm
    {
      strm.Valid() && InStep()
    }

    /** All bits not yet asked for. */
    ghost function Unread(): seq<bool>
      reads this`held, strm`nextIn
    {
      held + BytesToBits(strm.nextIn)
    }

    constructor (strm: Stream)
      requires strm.Valid()
      ensures Valid() && this.strm == strm && held == []
    {
      this.strm, bsBuff, bsLive, held := strm, 0, 0, [];
    }

    method Refill()
      requires Valid() && bsLive <= 24 && |strm.nextIn| > 0
      modifies this, strm`nextIn, strm`totalInLo32, strm`totalInHi32, strm`taken
      ensures Valid() && bsLive == old(bsLive) + 8 && Unread() == old(Unread())
      ensures |strm.nextIn| < |old(strm.nextIn)| && strm.taken + strm.nextIn == old(strm.taken + strm.nextIn)
    {
      hide LowBits, ToBits, BytesToBits, BitOr;
      var c := strm.TakeByte();
      Refilled(bsBuff, held, c);
      BytesToBitsConcat([c], strm.nextIn);
      OneByte(c);
      bsBuff := BitOr(bsBuff * 256 % WORD, c);
      bsLive := bsLive + 8;
      held := held + ToBits(c, 8);
      assert strm.taken + strm.nextIn == old(strm.taken) + ([c] + strm.nextIn);
      assert old(held) + (ToBits(c, 8) + BytesToBits(strm.nextIn)) == held + BytesToBits(strm.nextIn);
    }

    /** Main result: GET_BITS answers with the next n bits, or takes all input
        and keeps it when there are fewer. */
    method GetBits(n: nat) returns (ok: bool, v: nat)
      requires Valid() && n <= 24
      modifies this, strm`nextIn, strm`totalInLo32, strm`totalInHi32, strm`taken
      ensures Valid() && strm.taken + strm.nextIn == old(strm.taken + strm.nextIn)
      ensures ok ==> n <= |old(Unread())| && v == Val(old(Unread())[..n]) && Unread() == old(Unread())[n..]
      ensures !ok ==> |Unread()| < n && strm.nextIn == [] && Unread() == old(Unread())
    {
      hide LowBits, Val, BytesToBits, Field;
      while bsLive < n && |strm.nextIn| > 0
        invariant Valid() && Unread() == old(Unread())
        invariant strm.taken + strm.nextIn == old(strm.taken + strm.nextIn)
        decreases |strm.nextIn|
      {
        Refill();
      }
      if bsLive >= n {
        Taken(bsBuff, held, n);
        v := Field(bsBuff, bsLive, n);
        bsLive := bsLive - n;
        ok := true;
        assert Unread()[..n] == held[..n] && Unread()[n..] == held[n..] + BytesToBits(strm.nextIn);
        held := held[n..];
      } else {
        ok, v := false, 0;
      }
    }
  }

  // ---------- writing, then reading ----------

  datatype Bits = Bits(width: nat, value: nat)

  /** What BsW leaves after these fields. */
  function Written(fields: seq<Bits>): seq<bool> {
    if |fields| == 0 then []
    else
      var last := fields[|fields| - 1];
      Written(fields[..|fields| - 1]) + ToBits(last.value, last.width)
  }

  function Widths(fields: seq<Bits>): (w: seq<nat>)
    ensures |w| == |fields| && forall i :: 0 <= i < |w| ==> w[i] == fields[i].width
  {
    seq(|fields|, i requires 0 <= i < |fields| => fields[i].width)
  }

  /** All bits of a stream that these widths ask for, up to the first request
      that there are too few bits for. */
  function Asked(bits: seq<bool>, widths: seq<nat>): (k: nat)
    ensures k <= |bits|
  {
    if |widths| == 0 || |bits| < widths[0] then 0 else widths[0] + Asked(bits[widths[0]..], widths[1..])
  }

  /** What GetBits answers to requests of these widths. */
  function Answers(bits: seq<bool>, widths: seq<nat>): (a: seq<nat>)
    ensures |a| <= |widths|
  {
    if |widths| == 0 || |bits| < widths[0] then []
    else [Val(bits[..widths[0]])] + Answers(bits[widths[0]..], widths[1..])
  }

  /** Asked for the same widths, the reader answers with the values written and
      leaves what follows them. */
  lemma {:induction false} ReadBack(fields: seq<Bits>, rest: seq<bool>)
    requires forall i :: 0 <= i < |fields| ==> fields[i].value < Pow2(fields[i].width)
    ensures var a := Answers(Written(fields) + rest, Widths(fields));
            |a| == |fields| && forall i :: 0 <= i < |fields| ==> a[i] == fields[i].value
    ensures Asked(Written(fields) + rest, Widths(fields)) == |Written(fields)|
  {
    hide Pow2, Val, ToBits;
    if |fields| > 0 {
      var f, tail, bits := fields[0], fields[1..], Written(fields) + rest;
      ReadBack(tail, rest);
      WrittenFirst(fields);
      assert bits == ToBits(f.value, f.width) + (Written(tail) + rest);
      assert bits[..f.width] == ToBits(f.value, f.width) && bits[f.width..] == Written(tail) + rest;
      assert Widths(fields)[1..] == Widths(tail);
      ValToBits(f.value, f.width);
    }
  }

  lemma {:induction false} WrittenFirst(fields: seq<Bits>)
    requires |fields| > 0
    ensures Written(fields) == ToBits(fields[0].value, fields[0].width) + Written(fields[1..])
  {
    hide ToBits;
    var n := |fields| - 1;
    if n > 0 {
      WrittenFirst(fields[..n]);
      assert fields[..n][1..] == fields[1..][..n - 1];
    } else {
      assert fields[..0] == [] && fields[1..] == [];
    }
  }

  /** Writes a list of fields. */
  method WriteFields(w: BitWriter, fields: seq<Bits>)
    requires w.Valid()
    requires forall i :: 0 <= i < |fields| ==> fields[i].width <= 24 && fields[i].value < Pow2(fields[i].width)
    modifies w
    ensures w.Valid() && w.sent == old(w.sent) && w.bits == old(w.bits) + Written(fields)
  {
    hide Pow2, ToBits;
    for i := 0 to |fields|
      invariant w.Valid() && w.sent == old(w.sent) && w.bits == old(w.bits) + Written(fields[..i])
    {
      assert fields[..i + 1][..i] == fields[..i];
      w.BsW(fields[i].width, fields[i].value);
    }
    assert fields[..|fields|] == fields;
  }

  /** Asks for fields of these widths until there are too few bits. */
  method ReadFields(r: BitReader, widths: seq<nat>) returns (values: seq<nat>)
    requires r.Valid() && forall i :: 0 <= i < |widths| ==> widths[i] <= 24
    modifies r, r.strm`nextIn, r.strm`totalInLo32, r.strm`totalInHi32, r.strm`taken
    ensures r.Valid() && values == Answers(old(r.Unread()), widths)
    ensures r.Unread() == old(r.Unread())[Asked(old(r.Unread()), widths)..]
    decreases |widths|
  {
    hide Val, BitReader.Valid, BitReader.Unread;
    values := [];
    if widths != [] {
      ghost var bits, w := r.Unread(), widths[0];
      var ok, v := r.GetBits(widths[0]);
      if ok {
        values := ReadFields(r, widths[1..]);
        values := [v] + values;
        assert bits[w..][Asked(bits[w..], widths[1..])..] == bits[w + Asked(bits[w..], widths[1..])..];
      }
    }
  }

  /** Main result: fields written one by one, finished, and asked for with
      their widths come back as they were written, and only the padding is
      left. */
  method WriteAndRead(fields: seq<Bits>) returns (values: seq<nat>, ghost left: seq<bool>)
    requires forall i :: 0 <= i < |fields| ==> fields[i].width <= 24 && fields[i].value < Pow2(fields[i].width)
    ensures |values| == |fields| && forall i :: 0 <= i < |fields| ==> values[i] == fields[i].value
    ensures |left| < 8 && forall i :: 0 <= i < |left| ==> !left[i]
  {
    hide Pow2, Val, ToBits, BytesToBits, Written;
    var w := new BitWriter();
    WriteFields(w, fields);
    ghost var pad := w.FinishWrite();
    ReadBack(fields, pad);
    assert [] + w.zbits == w.zbits;
    var strm := new Stream();
    strm.nextIn := w.zbits;
    var r := new BitReader(strm);
    assert r.Unread() == Written(fields) + pad;
    values := ReadFields(r, Widths(fields));
    left := r.Unread();
    assert left == pad;
  }
}
