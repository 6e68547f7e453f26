/** The first run-length stage: four equal bytes are followed by a count of
    how many more there are. */
module Rle {
  import opened Words
  import opened Mtf

  /** Where the expansion of a block stands: n equal bytes ch have just been
      read (n < 4), or four have and their count is next (n == 4). */
  datatype RunState = RunState(ch: nat, n: nat)

  const FRESH := RunState(256, 0)

  function StepState(st: RunState, c: byte): RunState {
    if st.n == 4 then FRESH
    else if st.n > 0 && st.ch == c then RunState(c, st.n + 1)
    else RunState(c, 1)
  }

  function StepOut(st: RunState, c: byte): seq<byte>
    requires st.ch < 256 || st.n == 0
  {
    if st.n == 4 then Repeat(st.ch as byte, c) else [c]
  }

  ghost predicate Sensible(st: RunState) {
    st.n <= 4 && (st.n > 0 ==> st.ch < 256)
  }

  /** The bytes that s stands for, read in state st. */
  function Expand(s: seq<byte>, st: RunState): seq<byte>
    requires Sensible(st)
  {
    if |s| == 0 then [] else StepOut(st, s[0]) + Expand(s[1..], StepState(st, s[0]))
  }

  function StateAfter(s: seq<byte>, st: RunState): (r: RunState)
    requires Sensible(st)
    ensures Sensible(r)
  {
    if |s| == 0 then st else StateAfter(s[1..], StepState(st, s[0]))
  }

  /** A block that does not stop between four equal bytes and their count. */
  ghost predicate WellFormed(s: seq<byte>) {
    StateAfter(s, FRESH).n != 4
  }

  lemma {:induction false} ExpandConcat(a: seq<byte>, b: seq<byte>, st: RunState)
    requires Sensible(st)
    ensures Expand(a + b, st) == Expand(a, st) + Expand(b, StateAfter(a, st))
    ensures StateAfter(a + b, st) == StateAfter(b, StateAfter(a, st))
    decreases |a|
  {
    hide StepOut;
    if |a| == 0 {
      assert a + b == b;
    } else {
      ExpandConcat(a[1..], b, StepState(st, a[0]));
      assert (a + b)[1..] == a[1..] + b;
    }
  }

  /** What add_pair_to_block stores for a run. */
  function Pair(ch: byte, len: nat): seq<byte>
    requires 1 <= len <= 255
  {
    if len < 4 then Repeat(ch, len) else Repeat(ch, 4) + [len - 4]
  }

  /** The state in which a run of ch may be added: the byte before is not part
      of the same run. */
  ghost predicate MayStart(st: RunState, ch: nat) {
    Sensible(st) && st.n <= 3 && (st.n == 0 || st.ch != ch)
  }

  /** A stored run expands to the run. */
  lemma PairExpands(ch: byte, len: nat, st: RunState)
    requires 1 <= len <= 255 && MayStart(st, ch)
    ensures Expand(Pair(ch, len), st) == Repeat(ch, len)
    ensures StateAfter(Pair(ch, len), st) == if len < 4 then RunState(ch, len) else FRESH
  {
    var s := Pair(ch, len);
    var r1, r2, r3, r4 := RunState(ch, 1), RunState(ch, 2), RunState(ch, 3), RunState(ch, 4);
    Unfold(s, st);
    if len >= 2 { Unfold(s[1..], r1); }
    if len >= 3 { Unfold(s[2..], r2); assert s[1..][1..] == s[2..]; }
    if len >= 4 {
      Unfold(s[3..], r3);
      Unfold(s[4..], r4);
      assert s[2..][1..] == s[3..] && s[3..][1..] == s[4..];
      assert Repeat(ch, len) == [ch] + ([ch] + ([ch] + ([ch] + Repeat(ch, len - 4))));
    }
  }

  lemma Unfold(s: seq<byte>, st: RunState)
    requires Sensible(st) && |s| > 0
    ensures Expand(s, st) == StepOut(st, s[0]) + Expand(s[1..], StepState(st, s[0]))
    ensures StateAfter(s, st) == StateAfter(s[1..], StepState(st, s[0]))
  {
  }

  // ---------- the encoder's pending run ----------

  const NO_CHAR := 256

  /** The block holds part of the input; the rest is the pending run. */
  ghost predicate Charged(block: seq<byte>, ch: nat, len: nat, input: seq<byte>) {
    && ch <= NO_CHAR && len <= 255 && (ch == NO_CHAR <==> len == 0)
    && (ch < NO_CHAR ==> MayStart(StateAfter(block, FRESH), ch)) && WellFormed(block)
    && input == Expand(block, FRESH) + (if ch == NO_CHAR then [] else Repeat(ch as byte, len))
  }

  /** The three branches of ADD_CHAR_TO_BLOCK. */
  function AddCharBlock(block: seq<byte>, ch: nat, len: nat, c: byte): seq<byte>
    requires ch <= NO_CHAR && len <= 255 && (ch == NO_CHAR <==> len == 0)
  {
    if (c == ch && len != 255) || ch == NO_CHAR then block else block + Pair(ch as byte, len)
  }

  function AddCharLen(ch: nat, len: nat, c: byte): nat {
    if c == ch && len != 255 then len + 1 else 1
  }

  /** Flushing the pending run completes the block. */
  lemma FlushKeepsCharge(block: seq<byte>, ch: nat, len: nat, input: seq<byte>)
    requires Charged(block, ch, len, input) && ch < NO_CHAR
    ensures Charged(block + Pair(ch as byte, len), NO_CHAR, 0, input)
    ensures StateAfter(block + Pair(ch as byte, len), FRESH) == if len < 4 then RunState(ch, len) else FRESH
  {
    ExpandConcat(block, Pair(ch as byte, len), FRESH);
    PairExpands(ch as byte, len, StateAfter(block, FRESH));
  }

  /** Main result: adding a byte charges exactly that byte. A block with no
      pending run must be empty, as it is after every flush. */
  lemma AddCharKeepsCharge(block: seq<byte>, ch: nat, len: nat, input: seq<byte>, c: byte)
    requires Charged(block, ch, len, input) && (ch == NO_CHAR ==> block == [])
    ensures Charged(AddCharBlock(block, ch, len, c), c, AddCharLen(ch, len, c), input + [c])
    ensures |AddCharBlock(block, ch, len, c)| <= |block| + 5
  {
    if c == ch && len != 255 {
      assert Repeat(c, len + 1) == Repeat(c, len) + [c];
    } else {
      assert Repeat(c, 1) == [c];
      if ch == NO_CHAR {
        assert input == [];
      } else {
        FlushKeepsCharge(block, ch, len, input);
      }
    }
  }

  // ---------- the decoder's runs ----------

  /** The characters the decoder reads: it may read past the block's end. */
  type Source = nat -> byte

  datatype OutRun = OutRun(ch: byte, len: nat, used: nat)

  /** The run that starts at the prefetched character, number used - 1. */
  function NextRun(src: Source, nblock: nat, used: nat): (r: OutRun)
    requires 1 <= used <= nblock
    ensures r.len >= 1 && used < r.used
  {
    var k0 := src(used - 1);
    if used + 1 == nblock + 1 || src(used) != k0 then OutRun(k0, 1, used + 1)
    else if used + 2 == nblock + 1 || src(used + 1) != k0 then OutRun(k0, 2, used + 2)
    else if used + 3 == nblock + 1 || src(used + 2) != k0 then OutRun(k0, 3, used + 3)
    else OutRun(k0, src(used + 3) + 4, used + 5)
  }

  /** All output still to come once used characters have been read. */
  function Remaining(src: Source, nblock: nat, used: nat): seq<byte>
    requires 1 <= used
    decreases nblock + 1 - used
  {
    if used > nblock then []
    else
      var r := NextRun(src, nblock, used);
      Repeat(r.ch, r.len) + Remaining(src, nblock, r.used)
  }

  /** The runs end exactly at the end of the block. */
  predicate EndsWell(src: Source, nblock: nat, used: nat)
    requires 1 <= used
    decreases nblock + 1 - used
  {
    if used > nblock then used == nblock + 1 else EndsWell(src, nblock, NextRun(src, nblock, used).used)
  }

  /** The characters from number k to the end of the block. */
  ghost function Chars(src: Source, nblock: nat, k: nat): (s: seq<byte>)
    requires k <= nblock
    ensures |s| == nblock - k && forall i :: 0 <= i < |s| ==> s[i] == src(k + i)
  {
    seq(nblock - k, i requires 0 <= i < nblock - k => src(k + i))
  }

  lemma CharsNext(src: Source, nblock: nat, k: nat)
    requires k < nblock
    ensures Chars(src, nblock, k) == [src(k)] + Chars(src, nblock, k + 1)
    ensures Chars(src, nblock, k)[1..] == Chars(src, nblock, k + 1)
  {
  }

  /** A character that does not continue the run might as well come first. */
  lemma RunBroken(s: seq<byte>, st: RunState)
    requires Sensible(st) && st.n < 4 && (|s| > 0 ==> st.n == 0 || s[0] != st.ch)
    ensures Expand(s, st) == Expand(s, FRESH)
    ensures |s| > 0 ==> StateAfter(s, st) == StateAfter(s, FRESH)
  {
  }

  ghost predicate AllEqual(src: Source, k: nat, n: nat) {
    forall i: nat :: k <= i < k + n ==> src(i) == src(k)
  }

  /** Reading n equal characters at the start of a run. */
  lemma ReadRun(src: Source, nblock: nat, k: nat, n: nat)
    requires 1 <= n <= 4 && k + n <= nblock && AllEqual(src, k, n)
    ensures var st := RunState(src(k), n);
            && Expand(Chars(src, nblock, k), FRESH) == Repeat(src(k), n) + Expand(Chars(src, nblock, k + n), st)
            && StateAfter(Chars(src, nblock, k), FRESH) == StateAfter(Chars(src, nblock, k + n), st)
    decreases n
  {
    hide Expand, StateAfter, Chars;
    var c := src(k);
    if n == 1 {
      CharsNext(src, nblock, k);
      Unfold(Chars(src, nblock, k), FRESH);
      assert Repeat(c, 1) == [c];
    } else {
      ReadRun(src, nblock, k, n - 1);
      CharsNext(src, nblock, k + n - 1);
      Unfold(Chars(src, nblock, k + n - 1), RunState(c, n - 1));
      assert src(k + n - 1) == c;
      assert Repeat(c, n) == Repeat(c, n - 1) + [c];
    }
  }

  /** Main result: the runs the decoder takes are the expansion of the block,
      and they end well exactly when the block is well formed. */
  lemma {:induction false} RunsAreExpansion(src: Source, nblock: nat, used: nat)
    requires 1 <= used <= nblock + 1
    ensures var s := Chars(src, nblock, used - 1);
            && (EndsWell(src, nblock, used) <==> StateAfter(s, FRESH).n != 4)
            && (EndsWell(src, nblock, used) ==> Remaining(src, nblock, used) == Expand(s, FRESH))
    decreases nblock + 1 - used
  {
    hide Expand, StateAfter, Chars;
    if used == nblock + 1 {
      NoCharsLeft(src, nblock);
    } else {
      var r, k := NextRun(src, nblock, used), used - 1;
      if r.used == used + 5 {
        assert AllEqual(src, k, 4) by { assert src(k + 1) == src(k + 2) == src(k + 3) == src(k); }
        ReadRun(src, nblock, k, 4);
        CountRead(src, nblock, k);
        if k + 4 < nblock {
          RunsAreExpansion(src, nblock, r.used);
        }
      } else {
        ShortRun(src, nblock, used);
        RunsAreExpansion(src, nblock, r.used);
      }
    }
  }

  lemma NoCharsLeft(src: Source, nblock: nat)
    ensures Expand(Chars(src, nblock, nblock), FRESH) == [] && StateAfter(Chars(src, nblock, nblock), FRESH) == FRESH
  {
  }

  lemma ShortRun(src: Source, nblock: nat, used: nat)
    requires 1 <= used <= nblock && NextRun(src, nblock, used).used != used + 5
    ensures var r := NextRun(src, nblock, used);
            && r.used <= nblock + 1
            && Expand(Chars(src, nblock, used - 1), FRESH)
               == Repeat(r.ch, r.len) + Expand(Chars(src, nblock, r.used - 1), FRESH)
            && (StateAfter(Chars(src, nblock, used - 1), FRESH).n != 4
                <==> StateAfter(Chars(src, nblock, r.used - 1), FRESH).n != 4)
  {
    hide Expand, StateAfter, Chars;
    var r, k := NextRun(src, nblock, used), used - 1;
    assert AllEqual(src, k, r.len) by {
      assert r.len > 1 ==> src(k + 1) == src(k);
      assert r.len > 2 ==> src(k + 2) == src(k);
    }
    ReadRun(src, nblock, k, r.len);
    var tail := Chars(src, nblock, k + r.len);
    RunBroken(tail, RunState(src(k), r.len));
    if |tail| == 0 {
      NoCharsLeft(src, nblock);
      StateAfterNone(tail, RunState(src(k), r.len));
    }
  }

  lemma StateAfterNone(s: seq<byte>, st: RunState)
    requires |s| == 0 && Sensible(st)
    ensures StateAfter(s, st) == st
  {
  }

  /** The count after four equal characters. */
  lemma CountRead(src: Source, nblock: nat, k: nat)
    requires k + 4 <= nblock
    ensures var s, st := Chars(src, nblock, k + 4), RunState(src(k), 4);
            if k + 4 == nblock then StateAfter(s, st).n == 4
            else
              && Repeat(src(k), 4) + Expand(s, st)
                 == Repeat(src(k), src(k + 4) + 4) + Expand(Chars(src, nblock, k + 5), FRESH)
              && StateAfter(s, st) == StateAfter(Chars(src, nblock, k + 5), FRESH)
  {
    if k + 4 < nblock {
      CharsNext(src, nblock, k + 4);
      Unfold(Chars(src, nblock, k + 4), RunState(src(k), 4));
      assert Repeat(src(k), src(k + 4) + 4) == Repeat(src(k), 4) + Repeat(src(k), src(k + 4));
    }
  }
}
