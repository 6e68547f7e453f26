/** The caller's side of a stream: input not yet taken, output already given,
    room left for output, and the 64-bit totals kept as two 32-bit halves. */
module BzStream {
  import opened Words

  /** What a 64-bit total shows of n. */
  function Wrap64(n: int): int {
    n % (WORD * WORD)
  }

  class Stream {
    var nextIn: seq<byte>
    var nextOut: seq<byte>
    var availOut: nat
    var totalInLo32: nat
    var totalInHi32: nat
    var totalOutLo32: nat
    var totalOutHi32: nat
    /** All the input taken so far. */
    ghost var taken: seq<byte>

    /** The totals count the bytes taken and given, modulo 2^64. */
    ghost predicate Valid()
      reads this
    {
      && availOut < WORD && totalInLo32 < WORD && totalInHi32 < WORD && totalOutLo32 < WORD && totalOutHi32 < WORD
      && totalInHi32 * WORD + totalInLo32 == Wrap64(|taken|)
      && totalOutHi32 * WORD + totalOutLo32 == Wrap64(|nextOut|)
    }

    constructor ()
      ensures Valid() && nextIn == [] && nextOut == [] && availOut == 0 && taken == []
    {
      nextIn, nextOut, availOut, taken := [], [], 0, [];
      totalInLo32, totalInHi32, totalOutLo32, totalOutHi32 := 0, 0, 0, 0;
    }

    /** Takes one byte of input. */
    method TakeByte() returns (c: byte)
      requires Valid() && |nextIn| > 0
      modifies this`nextIn, this`totalInLo32, this`totalInHi32, this`taken
      ensures Valid() && old(nextIn) == [c] + nextIn && taken == old(taken) + [c]
    {
      hide Wrap64;
      c := nextIn[0];
      nextIn := nextIn[1..];
      taken := taken + [c];
      totalInLo32 := (totalInLo32 + 1) % WORD;
      if totalInLo32 == 0 {
        totalInHi32 := (totalInHi32 + 1) % WORD;
      }
      TotalStep(old(totalInLo32), old(totalInHi32), |old(taken)|, 1);
    }

    /** Gives one byte of output. */
    method PutByte(c: byte)
      requires Valid() && availOut > 0
      modifies this`nextOut, this`availOut, this`totalOutLo32, this`totalOutHi32
      ensures Valid() && nextOut == old(nextOut) + [c] && availOut == old(availOut) - 1
    {
      hide Wrap64;
      nextOut := nextOut + [c];
      availOut := availOut - 1;
      totalOutLo32 := (totalOutLo32 + 1) % WORD;
      if totalOutLo32 == 0 {
        totalOutHi32 := (totalOutHi32 + 1) % WORD;
      }
      TotalStep(old(totalOutLo32), old(totalOutHi32), |old(nextOut)|, 1);
    }

    /** Gives the bytes written through local copies of the fields. */
    method PutAll(s: seq<byte>)
      requires Valid() && |s| <= availOut
      modifies this`nextOut, this`availOut, this`totalOutLo32, this`totalOutHi32
      ensures Valid() && nextOut == old(nextOut) + s && availOut == old(availOut) - |s|
    {
      hide Wrap64;
      var totalOutLo32Old := totalOutLo32;
      nextOut := nextOut + s;
      availOut := availOut - |s|;
      totalOutLo32 := (totalOutLo32 + |s|) % WORD;
      if totalOutLo32 < totalOutLo32Old {
        totalOutHi32 := (totalOutHi32 + 1) % WORD;
      }
      TotalStep(old(totalOutLo32), old(totalOutHi32), |old(nextOut)|, |s|);
    }
  }

  /** Adding less than 2^32 to the low half carries at most one into the high
      half, and a carry shows as a smaller low half. */
  lemma TotalStep(lo: nat, hi: nat, count: nat, n: nat)
    requires lo < WORD && hi < WORD && n < WORD && hi * WORD + lo == Wrap64(count)
    ensures var lo' := (lo + n) % WORD;
            var hi' := if lo + n < WORD then hi else (hi + 1) % WORD;
            && lo' == (if lo + n < WORD then lo + n else lo + n - WORD)
            && hi' * WORD + lo' == Wrap64(count + n)
  {
    if lo + n >= WORD {
      assert lo + n == WORD + (lo + n - WORD);
    }
  }
}
