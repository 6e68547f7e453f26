/** Move-to-front coding with bijective base-2 coding of zero runs: the
    encoder's loop, the decoder's meaning, and their round trip. */
module Mtf {
  import opened Words

  const RUNA := 0
  const RUNB := 1

  // ---------- lists ----------

  function MoveToFront<T>(list: seq<T>, j: nat): (r: seq<T>)
    requires j < |list|
    ensures |r| == |list|
  {
    [list[j]] + list[..j] + list[j + 1..]
  }

  function Repeat<T>(c: T, n: nat): (r: seq<T>)
    ensures |r| == n && forall i :: 0 <= i < n ==> r[i] == c
  {
    seq(n, _ => c)
  }

  /** The list 0, 1, ..., n - 1. */
  function Identity(n: nat): (s: seq<nat>)
    ensures |s| == n && forall i :: 0 <= i < n ==> s[i] == i
  {
    seq(n, i => i)
  }

  /** Every entry of s is on the list. */
  ghost predicate Over(s: seq<nat>, list: seq<nat>) {
    forall i :: 0 <= i < |s| ==> s[i] in list
  }

  /** Where c stands in a list without repetitions. */
  function IndexOf(list: seq<nat>, c: nat): (j: nat)
    requires c in list
    ensures j < |list| && list[j] == c && c !in list[..j]
  {
    if list[0] == c then 0 else
    assert c in list[1..];
    var k := IndexOf(list[1..], c);
    assert list[..k + 1] == [list[0]] + list[1..][..k];
    k + 1
  }

  lemma MoveToFrontKeeps(list: seq<nat>, j: nat)
    requires j < |list| && Distinct(list)
    ensures Distinct(MoveToFront(list, j))
    ensures forall c :: c in MoveToFront(list, j) <==> c in list
  {
    var r := MoveToFront(list, j);
    forall c | c in list ensures c in r {
      var i :| 0 <= i < |list| && list[i] == c;
      assert r[if i < j then i + 1 else if i == j then 0 else i] == c;
    }
  }

  // ---------- zero runs ----------

  /** The digits the encoder writes for zPend pending front symbols, given
      zPend - 1. */
  function Digits(z: nat): (s: seq<nat>)
    ensures |s| <= z + 1 && forall i :: 0 <= i < |s| ==> s[i] < 2
  {
    [z % 2] + if z < 2 then [] else Digits((z - 2) / 2)
  }

  function RunDigits(zPend: nat): (s: seq<nat>)
    ensures |s| <= zPend && forall i :: 0 <= i < |s| ==> s[i] < 2
  {
    if zPend == 0 then [] else Digits(zPend - 1)
  }

  // ---------- encoding ----------

  /** The symbols for s when the list is list and zPend front symbols are
      pending; without the final end-of-block symbol. */
  function Encode(list: seq<nat>, zPend: nat, s: seq<nat>): (out: seq<nat>)
    requires |list| > 0 && Over(s, list) && Distinct(list)
    decreases |s|
  {
    if |s| == 0 then RunDigits(zPend)
    else if s[0] == list[0] then Encode(list, zPend + 1, s[1..])
    else
      var j := IndexOf(list, s[0]);
      MoveToFrontKeeps(list, j);
      RunDigits(zPend) + ([j + 1] + Encode(MoveToFront(list, j), 0, s[1..]))
  }

  // ---------- decoding ----------

  /** What the symbols mean when the list is list, the run so far counts w and
      its next digit weighs n. */
  function Decode<T>(list: seq<T>, w: nat, n: nat, syms: seq<nat>): (out: seq<T>)
    requires |list| > 0 && Symbols(syms, |list|)
    decreases |syms|
  {
    if |syms| == 0 then Repeat(list[0], w)
    else if syms[0] < 2 then Decode(list, w + (syms[0] + 1) * n, 2 * n, syms[1..])
    else
      Repeat(list[0], w) + ([list[syms[0] - 1]]
      + Decode(MoveToFront(list, syms[0] - 1), 0, 1, syms[1..]))
  }

  ghost predicate Symbols(syms: seq<nat>, size: nat) {
    forall i :: 0 <= i < |syms| ==> syms[i] <= size
  }

  lemma DigitWeight(w: nat, n: nat, z: nat)
    ensures z < 2 ==> w + (z % 2 + 1) * n == w + n * (z + 1)
    ensures z >= 2 ==> w + (z % 2 + 1) * n + (2 * n) * ((z - 2) / 2 + 1) == w + n * (z + 1)
  {
    if z >= 2 {
      var d, y := z % 2, (z - 2) / 2;
      assert z + 1 == (d + 1) + 2 * (y + 1);
      assert n * (z + 1) == n * (d + 1) + n * (2 * (y + 1));
      assert n * (2 * (y + 1)) == (2 * n) * (y + 1);
    }
  }

  lemma DecodeDigit<T>(list: seq<T>, w: nat, n: nat, d: nat, tail: seq<nat>)
    requires |list| > 0 && d < 2 && Symbols(tail, |list|)
    ensures Decode(list, w, n, [d] + tail) == Decode(list, w + (d + 1) * n, 2 * n, tail)
  {
    assert ([d] + tail)[1..] == tail;
  }

  /** Outside a run the weight of the next digit does not matter. */
  lemma DecodeWeight<T>(list: seq<T>, w: nat, n: nat, rest: seq<nat>)
    requires |list| > 0 && Symbols(rest, |list|) && (|rest| > 0 ==> rest[0] >= 2)
    ensures Decode(list, w, n, rest) == Decode(list, w, 1, rest)
  {
  }

  /** The digits of a run add up to the run. */
  lemma {:induction false} DecodeDigits<T>(list: seq<T>, w: nat, n: nat, z: nat, rest: seq<nat>)
    requires |list| > 0 && Symbols(rest, |list|) && (|rest| > 0 ==> rest[0] >= 2)
    ensures Symbols(Digits(z) + rest, |list|)
    ensures Decode(list, w, n, Digits(z) + rest) == Decode(list, w + n * (z + 1), 1, rest)
    decreases z
  {
    hide Decode;
    var d := z % 2;
    var tail := (if z < 2 then [] else Digits((z - 2) / 2)) + rest;
    DigitWeight(w, n, z);
    assert Digits(z) + rest == [d] + tail;
    DecodeDigit(list, w, n, d, tail);
    if z < 2 {
      assert tail == rest;
      DecodeWeight(list, w + n * (z + 1), 2 * n, rest);
    } else {
      DecodeDigits(list, w + (d + 1) * n, 2 * n, (z - 2) / 2, rest);
    }
  }

  lemma DecodeRun<T>(list: seq<T>, zPend: nat, rest: seq<nat>)
    requires |list| > 0 && Symbols(rest, |list|) && (|rest| > 0 ==> rest[0] >= 2)
    ensures Symbols(RunDigits(zPend) + rest, |list|)
    ensures Decode(list, 0, 1, RunDigits(zPend) + rest) == Decode(list, zPend, 1, rest)
  {
    hide Decode, Digits;
    if zPend == 0 {
      assert RunDigits(zPend) + rest == rest;
    } else {
      DecodeDigits(list, 0, 1, zPend - 1, rest);
      assert 0 + 1 * (zPend - 1 + 1) == zPend;
    }
  }

  lemma {:induction false} EncodeInRange(list: seq<nat>, zPend: nat, s: seq<nat>)
    requires |list| > 0 && Over(s, list) && Distinct(list)
    ensures Symbols(Encode(list, zPend, s), |list|)
    ensures |Encode(list, zPend, s)| <= zPend + |s|
    decreases |s|
  {
    hide RunDigits, IndexOf, MoveToFront, Distinct;
    if |s| == 0 {
    } else if s[0] == list[0] {
      EncodeInRange(list, zPend + 1, s[1..]);
    } else {
      var j := IndexOf(list, s[0]);
      MoveToFrontKeeps(list, j);
      EncodeInRange(MoveToFront(list, j), 0, s[1..]);
    }
  }

  /** Main result: decoding what was encoded gives the pending front symbols
      and then the input. */
  lemma {:induction false} RoundTrip(list: seq<nat>, zPend: nat, s: seq<nat>)
    requires |list| > 0 && Over(s, list) && Distinct(list)
    ensures Symbols(Encode(list, zPend, s), |list|)
    ensures Decode(list, 0, 1, Encode(list, zPend, s)) == Repeat(list[0], zPend) + s
    decreases |s|
  {
    EncodeInRange(list, zPend, s);
    if |s| == 0 {
      DecodeRun(list, zPend, []);
      assert RunDigits(zPend) + [] == RunDigits(zPend);
    } else if s[0] == list[0] {
      RoundTrip(list, zPend + 1, s[1..]);
      assert Repeat(list[0], zPend + 1) + s[1..] == Repeat(list[0], zPend) + s;
    } else {
      RoundTripMove(list, zPend, s);
    }
  }

  /** Encoding and decoding unfolded where the front of the list changes. */
  lemma EncodeMove(list: seq<nat>, zPend: nat, s: seq<nat>)
    requires |list| > 0 && Over(s, list) && Distinct(list)
    requires |s| > 0 && s[0] != list[0]
    ensures var j := IndexOf(list, s[0]);
            var next := MoveToFront(list, j);
            && j > 0 && list[j] == s[0] && Over(s, next) && Distinct(next)
            && Encode(list, zPend, s) == RunDigits(zPend) + ([j + 1] + Encode(next, 0, s[1..]))
  {
    var j := IndexOf(list, s[0]);
    MoveToFrontKeeps(list, j);
    assert Encode(list, zPend, s) == RunDigits(zPend) + ([j + 1] + Encode(MoveToFront(list, j), 0, s[1..]));
  }

  lemma DecodeMove<T>(list: seq<T>, w: nat, n: nat, x: nat, tail: seq<nat>)
    requires |list| > 0 && 2 <= x <= |list| && Symbols(tail, |list|)
    ensures Decode(list, w, n, [x] + tail)
         == Repeat(list[0], w) + ([list[x - 1]] + Decode(MoveToFront(list, x - 1), 0, 1, tail))
  {
    assert ([x] + tail)[1..] == tail;
  }

  lemma RoundTripMove(list: seq<nat>, zPend: nat, s: seq<nat>)
    requires |list| > 0 && Over(s, list) && Distinct(list)
    requires |s| > 0 && s[0] != list[0]
    ensures Symbols(Encode(list, zPend, s), |list|)
    ensures Decode(list, 0, 1, Encode(list, zPend, s)) == Repeat(list[0], zPend) + s
    decreases |s|, 0
  {
    hide IndexOf, RunDigits, MoveToFront, Distinct, Encode, Decode;
    EncodeMove(list, zPend, s);
    EncodeInRange(list, zPend, s);
    var j := IndexOf(list, s[0]);
    var next := MoveToFront(list, j);
    var tail := Encode(next, 0, s[1..]);
    EncodeInRange(next, 0, s[1..]);
    RoundTrip(next, 0, s[1..]);
    DecodeRun(list, zPend, [j + 1] + tail);
    DecodeMove(list, zPend, 1, j + 1, tail);
    assert Repeat(next[0], 0) + s[1..] == s[1..];
    assert [s[0]] + s[1..] == s;
  }
}
