/** The encoder's pass over the sorted block: byte mapping, move-to-front
    list kept in place, zero runs, and symbol frequencies. */
module MtfEncoder {
  import opened Words
  import opened Counting
  import opened Mtf
  import opened Cyclic

  // ---------- mapping of the bytes in use ----------

  /** The bytes below c that are in use, in order. */
  function UsedBytes(inUse: seq<bool>, c: nat): (s: seq<byte>)
    requires c <= |inUse| <= 256
    ensures |s| <= c
    ensures forall i :: 0 <= i < |s| ==> s[i] < c && inUse[s[i]]
  {
    if c == 0 then [] else UsedBytes(inUse, c - 1) + if inUse[c - 1] then [c - 1] else []
  }

  lemma {:induction false} UsedBytesGrow(inUse: seq<bool>, c: nat, d: nat)
    requires c <= d <= |inUse| <= 256
    ensures UsedBytes(inUse, c) <= UsedBytes(inUse, d)
  {
    if c != d {
      UsedBytesGrow(inUse, c, d - 1);
    }
  }

  /** A byte in use stands in the list right after the smaller ones. */
  lemma UsedByteAt(inUse: seq<bool>, c: nat)
    requires |inUse| == 256 && c < 256 && inUse[c]
    ensures var k := |UsedBytes(inUse, c)|;
            k < |UsedBytes(inUse, 256)| && UsedBytes(inUse, 256)[k] == c
  {
    UsedBytesGrow(inUse, c + 1, 256);
  }

  /** unseqToSeq numbers the bytes in use in increasing order. */
  ghost predicate IsMapping(inUse: seq<bool>, unseqToSeq: seq<nat>) {
    && |inUse| == |unseqToSeq| == 256
    && forall c :: 0 <= c < 256 && inUse[c] ==> unseqToSeq[c] == |UsedBytes(inUse, c)|
  }

  method MakeMapsE(inUse: array<bool>, unseqToSeq: array<nat>) returns (nInUse: nat)
    requires inUse.Length == 256 && unseqToSeq.Length == 256
    modifies unseqToSeq
    ensures nInUse == |UsedBytes(inUse[..], 256)| && IsMapping(inUse[..], unseqToSeq[..])
  {
    nInUse := 0;
    for i := 0 to 256
      invariant nInUse == |UsedBytes(inUse[..], i)|
      invariant forall c :: 0 <= c < i && inUse[c] ==> unseqToSeq[c] == |UsedBytes(inUse[..], c)|
    {
      if inUse[i] {
        unseqToSeq[i] := nInUse;
        nInUse := nInUse + 1;
      }
    }
  }

  /** The decoder's mapping: the inverse of the encoder's. */
  method MakeMapsD(inUse: array<bool>, seqToUnseq: array<byte>) returns (nInUse: nat)
    requires inUse.Length == 256 && seqToUnseq.Length == 256
    modifies seqToUnseq
    ensures nInUse == |UsedBytes(inUse[..], 256)| && seqToUnseq[..nInUse] == UsedBytes(inUse[..], 256)
  {
    nInUse := 0;
    for i := 0 to 256
      invariant nInUse == |UsedBytes(inUse[..], i)|
      invariant seqToUnseq[..nInUse] == UsedBytes(inUse[..], i)
    {
      if inUse[i] {
        seqToUnseq[nInUse] := i;
        nInUse := nInUse + 1;
      }
    }
  }

  // ---------- symbols ----------

  function SumCounts(s: seq<nat>, n: nat): nat {
    if n == 0 then 0 else SumCounts(s, n - 1) + CountEq(s, n - 1)
  }

  /** The frequencies of all symbols below n add up to the length. */
  lemma {:induction false} SumCountsIsLength(s: seq<nat>, n: nat)
    requires Below(s, n)
    ensures SumCounts(s, n) == |s|
  {
    if |s| == 0 {
      SumCountsEmpty(n);
    } else {
      var h := s[..|s| - 1];
      SumCountsIsLength(h, n);
      SumCountsPush(h, s[|s| - 1], n);
      assert s == h + [s[|s| - 1]];
    }
  }

  lemma {:induction false} SumCountsEmpty(n: nat)
    ensures SumCounts([], n) == 0
  {
    if n != 0 {
      SumCountsEmpty(n - 1);
    }
  }

  lemma {:induction false} SumCountsPush(h: seq<nat>, v: nat, n: nat)
    ensures SumCounts(h + [v], n) == SumCounts(h, n) + if v < n then 1 else 0
  {
    if n != 0 {
      SumCountsPush(h, v, n - 1);
      assert (h + [v])[..|h|] == h;
    }
  }

  ghost predicate Below(s: seq<nat>, n: nat) {
    forall i :: 0 <= i < |s| ==> s[i] < n
  }

  /** Everything the encoder sends for the mapped last column s. */
  function MtfSymbols(nInUse: nat, s: seq<nat>): seq<nat>
    requires nInUse > 0 && Below(s, nInUse)
  {
    assert forall i :: 0 <= i < |s| ==> s[i] == Identity(nInUse)[s[i]];
    Encode(Identity(nInUse), 0, s) + [nInUse + 1]
  }

  /** The end-of-block symbol occurs once, at the end; there is at most one
      more symbol than there are characters. */
  lemma MtfSymbolsShape(nInUse: nat, s: seq<nat>)
    requires nInUse > 0 && Below(s, nInUse)
    ensures var out := MtfSymbols(nInUse, s);
            && 1 <= |out| <= |s| + 1
            && out[|out| - 1] == nInUse + 1
            && (forall i :: 0 <= i < |out| - 1 ==> out[i] <= nInUse)
            && SumCounts(out, nInUse + 2) == |out|
  {
    assert forall i :: 0 <= i < |s| ==> s[i] == Identity(nInUse)[s[i]];
    EncodeInRange(Identity(nInUse), 0, s);
    SumCountsIsLength(MtfSymbols(nInUse, s), nInUse + 2);
  }

  /** What generateMTFValues has written so far: symbols and their counts. */
  ghost predicate Written(mtfv: seq<nat>, wr: nat, freq: seq<nat>, alphaSize: nat, out: seq<nat>) {
    && wr == |out| <= |mtfv| && mtfv[..wr] == out
    && alphaSize <= |freq| && forall v :: 0 <= v < alphaSize ==> freq[v] == CountEq(out, v)
  }

  // ---------- symbols over pointers ----------

  const HALF := 0x1_0000

  /** The 16-bit halves of 32-bit words: mtfv is this view of ptr. */
  function Halves(s: seq<nat>): (r: seq<nat>)
    ensures |r| == 2 * |s|
  {
    seq(2 * |s|, k requires 0 <= k < 2 * |s| => if k % 2 == 0 then s[k / 2] % HALF else s[k / 2] / HALF % HALF)
  }

  /** Storing a half changes only the word that it is in. */
  method PutHalf(a: array<nat>, k: nat, v: nat)
    requires k < 2 * a.Length && v < HALF
    modifies a
    ensures Halves(a[..]) == old(Halves(a[..]))[k := v]
    ensures forall i :: k < i < a.Length ==> a[i] == old(a[i])
  {
    var x := a[k / 2];
    a[k / 2] := if k % 2 == 0 then x / HALF * HALF + v else v * HALF + x % HALF;
    HalfStored(x, v);
    forall j | 0 <= j < 2 * a.Length ensures Halves(a[..])[j] == old(Halves(a[..]))[k := v][j] {
      if j != k && j / 2 == k / 2 {
        assert j % 2 != k % 2;
      }
    }
  }

  lemma HalfStored(x: nat, v: nat)
    requires v < HALF
    ensures (x / HALF * HALF + v) % HALF == v && (x / HALF * HALF + v) / HALF == x / HALF
    ensures (v * HALF + x % HALF) % HALF == x % HALF && (v * HALF + x % HALF) / HALF % HALF == v
  {
  }

  method Emit(ptr: array<nat>, wr: nat, freq: array<nat>, sym: nat, ghost alphaSize: nat, ghost out: seq<nat>)
      returns (wr': nat)
    requires ptr != freq && wr < 2 * ptr.Length && sym < alphaSize <= HALF
    requires Written(Halves(ptr[..]), wr, freq[..], alphaSize, out)
    modifies ptr, freq
    ensures wr' == wr + 1 && Written(Halves(ptr[..]), wr', freq[..], alphaSize, out + [sym])
    ensures forall i :: wr < i < ptr.Length ==> ptr[i] == old(ptr[i])
  {
    hide Halves;
    PutHalf(ptr, wr, sym);
    wr' := wr + 1;
    freq[sym] := freq[sym] + 1;
    assert Halves(ptr[..])[..wr'] == old(Halves(ptr[..]))[..wr] + [sym];
    forall v | 0 <= v < alphaSize ensures freq[v] == CountEq(out + [sym], v) {
      assert (out + [sym])[..|out|] == out;
    }
  }

  lemma DigitsStep(done: seq<nat>, z: nat)
    ensures z < 2 ==> done + Digits(z) == done + [z % 2]
    ensures z >= 2 ==> done + Digits(z) == done + [z % 2] + Digits((z - 2) / 2) && (z - 2) / 2 < z
  {
  }

  lemma RunDigitsAre(zPend: nat)
    requires zPend > 0
    ensures RunDigits(zPend) == [] + Digits(zPend - 1)
  {
  }

  /** Writes the digits of the pending run. */
  method EmitRun(ptr: array<nat>, wr0: nat, freq: array<nat>, zPend0: nat, ghost alphaSize: nat, ghost out: seq<nat>)
      returns (wr: nat)
    requires ptr != freq && zPend0 > 0 && wr0 + zPend0 <= 2 * ptr.Length && 2 <= alphaSize <= HALF
    requires Written(Halves(ptr[..]), wr0, freq[..], alphaSize, out)
    modifies ptr, freq
    ensures Written(Halves(ptr[..]), wr, freq[..], alphaSize, out + RunDigits(zPend0))
    ensures forall i :: wr0 + zPend0 <= i < ptr.Length ==> ptr[i] == old(ptr[i])
  {
    hide Digits, RunDigits, Written, Halves;
    RunDigitsAre(zPend0);
    ghost var end := wr0 + zPend0;
    wr := wr0;
    var zPend: nat := zPend0 - 1;
    ghost var done: seq<nat> := [];
    assert out + done == out;
    while true
      invariant Written(Halves(ptr[..]), wr, freq[..], alphaSize, out + done)
      invariant forall i :: end <= i < ptr.Length ==> ptr[i] == old(ptr[i])
      invariant RunDigits(zPend0) == done + Digits(zPend)
      invariant wr + zPend < end
      decreases zPend
    {
      DigitsStep(done, zPend);
      var bit := if zPend % 2 == 1 then RUNB else RUNA;
      assert out + done + [bit] == out + (done + [bit]);
      wr := Emit(ptr, wr, freq, bit, alphaSize, out + done);
      done := done + [bit];
      if zPend < 2 {
        break;
      }
      zPend := (zPend - 2) / 2;
    }
  }

  /** Moves the entry ll, which is not at the front, to the front; j is where
      it was. */
  method MoveInPlace(yy: array<nat>, ll: nat, n: nat) returns (j: nat)
    requires n <= yy.Length && ll in yy[..n] && yy[0] != ll
    modifies yy
    ensures old(ll in yy[..n] && j == IndexOf(yy[..n], ll))
    ensures yy[..n] == MoveToFront(old(yy[..n]), j)
    ensures yy[n..] == old(yy[n..])
  {
    ghost var before := yy[..];
    ghost var k := IndexOf(before[..n], ll);
    var rtmp := yy[1];
    yy[1] := yy[0];
    j := 1;
    while ll != rtmp
      invariant 1 <= j <= k < n && rtmp == before[j]
      invariant forall t :: 1 <= t <= j ==> yy[t] == before[t - 1]
      invariant forall t :: j < t < yy.Length ==> yy[t] == before[t]
      decreases k - j
    {
      assert j != k;
      j := j + 1;
      var rtmp2 := rtmp;
      rtmp := yy[j];
      yy[j] := rtmp2;
    }
    yy[0] := rtmp;
    assert before[..n][..k] == before[..k];
    assert j == k && rtmp == before[k];
    assert yy[..n] == [before[k]] + before[..k] + before[k + 1..n];
    assert before[..n][k + 1..] == before[k + 1..n];
  }

  /** The mapped last column: what the loop reads through ptr. */
  ghost function MappedColumn(ptr: seq<nat>, block: seq<byte>, unseqToSeq: seq<nat>): (s: seq<nat>)
    requires |unseqToSeq| == 256 && |ptr| == |block| && forall i :: 0 <= i < |ptr| ==> ptr[i] < |block|
    ensures |s| == |ptr|
    ensures forall i :: 0 <= i < |s| ==> s[i] == unseqToSeq[block[Prev(|block|, ptr[i])]]
  {
    seq(|ptr|, i requires 0 <= i < |ptr| => unseqToSeq[block[Prev(|block|, ptr[i])]])
  }

  lemma EncodeFront(list: seq<nat>, zPend: nat, s: seq<nat>)
    requires |list| > 0 && Over(s, list) && Distinct(list)
    requires |s| > 0 && s[0] == list[0]
    ensures Over(s[1..], list)
    ensures Encode(list, zPend, s) == Encode(list, zPend + 1, s[1..])
  {
  }

  /** The loop has written out and still owes what encoding the rest gives. */
  ghost predicate Owes(nInUse: nat, s: seq<nat>, i: nat, out: seq<nat>, list: seq<nat>, zPend: nat)
    requires nInUse > 0 && i <= |s| && Below(s, nInUse)
  {
    && |list| == nInUse && Distinct(list) && (forall c: nat :: c < nInUse ==> c in list)
    && |out| + zPend <= i
    && MtfSymbols(nInUse, s) == out + Encode(list, zPend, s[i..]) + [nInUse + 1]
  }

  lemma OwesStart(nInUse: nat, s: seq<nat>)
    requires nInUse > 0 && Below(s, nInUse)
    ensures Owes(nInUse, s, 0, [], Identity(nInUse), 0)
  {
    hide Encode;
    assert s[0..] == s;
    forall c: nat | c < nInUse ensures c in Identity(nInUse) {
      assert Identity(nInUse)[c] == c;
    }
    assert forall i :: 0 <= i < |s| ==> s[i] == Identity(nInUse)[s[i]];
    assert [] + Encode(Identity(nInUse), 0, s) == Encode(Identity(nInUse), 0, s);
  }

  lemma OwesFront(nInUse: nat, s: seq<nat>, i: nat, out: seq<nat>, list: seq<nat>, zPend: nat)
    requires nInUse > 0 && i < |s| && Below(s, nInUse)
    requires Owes(nInUse, s, i, out, list, zPend) && s[i] == list[0]
    ensures Owes(nInUse, s, i + 1, out, list, zPend + 1)
  {
    hide Encode, MtfSymbols;
    EncodeFront(list, zPend, s[i..]);
    assert s[i..][1..] == s[i + 1..];
  }

  lemma OwesMove(nInUse: nat, s: seq<nat>, i: nat, out: seq<nat>, list: seq<nat>, zPend: nat)
    requires nInUse > 0 && i < |s| && Below(s, nInUse)
    requires Owes(nInUse, s, i, out, list, zPend) && s[i] != list[0]
    ensures var j := IndexOf(list, s[i]);
            j > 0 && Owes(nInUse, s, i + 1, out + RunDigits(zPend) + [j + 1], MoveToFront(list, j), 0)
  {
    hide Encode, MtfSymbols, RunDigits;
    var j := IndexOf(list, s[i]);
    EncodeMove(list, zPend, s[i..]);
    MoveToFrontKeeps(list, j);
    assert s[i..][1..] == s[i + 1..];
    var tail := Encode(MoveToFront(list, j), 0, s[i + 1..]);
    assert out + (RunDigits(zPend) + ([j + 1] + tail)) == out + RunDigits(zPend) + [j + 1] + tail;
  }

  lemma OwesMeans(nInUse: nat, s: seq<nat>, i: nat, out: seq<nat>, list: seq<nat>, zPend: nat)
    requires nInUse > 0 && i < |s| && Below(s, nInUse)
    requires Owes(nInUse, s, i, out, list, zPend)
    ensures |out| + zPend <= i && |list| == nInUse && s[i] in list
    ensures IndexOf(list, s[i]) < nInUse && |RunDigits(zPend)| <= zPend
  {
  }

  lemma Finish(nInUse: nat, s: seq<nat>, out: seq<nat>, list: seq<nat>, zPend: nat)
    requires nInUse > 0 && Below(s, nInUse)
    requires Owes(nInUse, s, |s|, out, list, zPend)
    ensures |out| + zPend <= |s| && |RunDigits(zPend)| <= zPend
    ensures MtfSymbols(nInUse, s) == out + RunDigits(zPend) + [nInUse + 1]
  {
    assert Encode(list, zPend, s[|s|..]) == RunDigits(zPend);
  }

  lemma NoRun(out: seq<nat>, zPend: nat)
    ensures zPend == 0 ==> out + RunDigits(zPend) == out
  {
  }

  lemma WrittenStart(mtfv: seq<nat>, freq: seq<nat>, alphaSize: nat)
    requires alphaSize <= |freq| && forall v :: 0 <= v < alphaSize ==> freq[v] == 0
    ensures Written(mtfv, 0, freq, alphaSize, [])
  {
  }

  lemma WrittenMeans(mtfv: seq<nat>, wr: nat, freq: seq<nat>, alphaSize: nat, out: seq<nat>)
    requires Written(mtfv, wr, freq, alphaSize, out)
    ensures wr == |out| <= |mtfv| && mtfv[..wr] == out
    ensures alphaSize <= |freq| && forall v :: 0 <= v < alphaSize ==> freq[v] == CountEq(out, v)
  {
  }

  /** Main result: although the symbols are stored over the sorted order that
      is being read, no entry is overwritten before it has been read, and the
      symbols and their counts are those of the last column. */
  method GenerateMtfValues(ptr: array<nat>, block: array<byte>, unseqToSeq: array<nat>, nblock: nat, nInUse: nat,
                           mtfFreq: array<nat>, ghost s: seq<nat>)
      returns (nMTF: nat)
    requires mtfFreq != ptr && mtfFreq != unseqToSeq && unseqToSeq != ptr
    requires 0 < nblock <= ptr.Length && nblock <= block.Length && mtfFreq.Length >= nInUse + 2
    requires unseqToSeq.Length == 256 && 0 < nInUse <= 256
    requires forall i :: 0 <= i < nblock ==> ptr[i] < nblock
    requires s == MappedColumn(ptr[..nblock], block[..nblock], unseqToSeq[..]) && Below(s, nInUse)
    modifies ptr, mtfFreq
    ensures 0 < nMTF <= nblock + 1 && nMTF <= 2 * ptr.Length && Halves(ptr[..])[..nMTF] == MtfSymbols(nInUse, s)
    ensures forall v :: 0 <= v < nInUse + 2 ==> mtfFreq[v] == CountEq(Halves(ptr[..])[..nMTF], v)
  {
    hide Halves, Encode, MtfSymbols, Owes, Written, IndexOf, RunDigits, MoveToFront, Distinct;
    var yy := new nat[256];
    var eob, alphaSize := nInUse + 1, nInUse + 2;
    ghost var out: seq<nat> := [];
    for i := 0 to alphaSize
      invariant forall v :: 0 <= v < i ==> mtfFreq[v] == 0
      modifies mtfFreq
    {
      mtfFreq[i] := 0;
    }
    for i := 0 to nInUse
      invariant forall v :: 0 <= v < i ==> yy[v] == v
      modifies yy
    {
      yy[i] := i;
    }
    assert yy[..nInUse] == Identity(nInUse);
    WrittenStart(Halves(ptr[..]), mtfFreq[..], alphaSize);
    OwesStart(nInUse, s);
    var wr: nat, zPend: nat := 0, 0;
    for i := 0 to nblock
      invariant Written(Halves(ptr[..]), wr, mtfFreq[..], alphaSize, out)
      invariant Owes(nInUse, s, i, out, yy[..nInUse], zPend)
      invariant forall k :: i <= k < nblock ==> ptr[k] == old(ptr[k])
      modifies ptr, mtfFreq, yy
    {
      OwesMeans(nInUse, s, i, out, yy[..nInUse], zPend);
      WrittenMeans(Halves(ptr[..]), wr, mtfFreq[..], alphaSize, out);
      var j := ptr[i] as int - 1;
      if j < 0 { j := j + nblock; }
      var ll: nat := unseqToSeq[block[j]];
      assert ll == s[i];
      if yy[0] == ll {
        OwesFront(nInUse, s, i, out, yy[..nInUse], zPend);
        zPend := zPend + 1;
      } else {
        OwesMove(nInUse, s, i, out, yy[..nInUse], zPend);
        if zPend > 0 {
          wr := EmitRun(ptr, wr, mtfFreq, zPend, alphaSize, out);
        }
        NoRun(out, zPend);
        out := out + RunDigits(zPend);
        zPend := 0;
        var k: nat := MoveInPlace(yy, ll, nInUse);
        WrittenMeans(Halves(ptr[..]), wr, mtfFreq[..], alphaSize, out);
        wr := Emit(ptr, wr, mtfFreq, k + 1, alphaSize, out);
        out := out + [k + 1];
      }
    }
    Finish(nInUse, s, out, yy[..nInUse], zPend);
    WrittenMeans(Halves(ptr[..]), wr, mtfFreq[..], alphaSize, out);
    if zPend > 0 {
      wr := EmitRun(ptr, wr, mtfFreq, zPend, alphaSize, out);
    }
    NoRun(out, zPend);
    WrittenMeans(Halves(ptr[..]), wr, mtfFreq[..], alphaSize, out + RunDigits(zPend));
    nMTF := Emit(ptr, wr, mtfFreq, eob, alphaSize, out + RunDigits(zPend));
    WrittenMeans(Halves(ptr[..]), nMTF, mtfFreq[..], alphaSize, out + RunDigits(zPend) + [eob]);
  }
}
