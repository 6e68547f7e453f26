/** Canonical code assignment, the decoder's limit/base/perm tables, and the
    bit-by-bit look-up that undoes the code. */
module HuffmanCodes {
  import opened Words
  import opened Counting
  import opened Cyclic
  import opened HuffmanForest

  const BZ_MAX_CODE_LEN := 23
  /** The longest code the decoder accepts. */
  const LONGEST := 20

  ghost predicate ValidLengths(lens: seq<nat>) {
    0 < |lens| <= BZ_MAX_ALPHA_SIZE && forall i :: 0 <= i < |lens| ==> 1 <= lens[i] <= LONGEST
  }

  /** The code lengths do not claim more than the whole code space. */
  ghost predicate Fits(lens: seq<nat>) {
    ValidLengths(lens) && KraftSum(lens, LONGEST) <= Pow2(LONGEST)
  }

  /** The first code of length n. */
  function First(lens: seq<nat>, n: nat): nat {
    if n == 0 then 0 else 2 * (First(lens, n - 1) + CountEq(lens, n - 1))
  }

  /** The code of symbol i: codes of a length are consecutive. */
  function Code(lens: seq<nat>, i: nat): nat
    requires i < |lens|
  {
    First(lens, lens[i]) + CountEq(lens[..i], lens[i])
  }

  lemma {:induction false} NoCodesBelow(lens: seq<nat>, minLen: nat, n: nat)
    requires n <= minLen && forall i :: 0 <= i < |lens| ==> minLen <= lens[i]
    ensures First(lens, n) == 0 && CountLess(lens, n) == 0 && (n < minLen ==> CountEq(lens, n) == 0)
  {
    NoneLess(lens, n);
    if n < minLen {
      NoneLess(lens, n + 1);
      CountLessNext(lens, n);
    }
    if n != 0 {
      NoCodesBelow(lens, minLen, n - 1);
    }
  }

  lemma {:induction false} NoneLess(s: seq<nat>, n: nat)
    requires forall i :: 0 <= i < |s| ==> n <= s[i]
    ensures CountLess(s, n) == 0
  {
    if |s| != 0 {
      NoneLess(s[..|s| - 1], n);
    }
  }

  // ---------- codes fit their length ----------

  /** The code space below length n, in units of 2^-n. */
  ghost function CodeSpace(lens: seq<nat>, n: nat): nat {
    if |lens| == 0 then 0
    else CodeSpace(lens[..|lens| - 1], n) + if lens[|lens| - 1] <= n then Pow2(n - lens[|lens| - 1]) else 0
  }

  lemma {:induction false} UsedNext(lens: seq<nat>, n: nat)
    ensures CodeSpace(lens, n + 1) == 2 * CodeSpace(lens, n) + CountEq(lens, n + 1)
    ensures CodeSpace(lens, 0) == CountEq(lens, 0)
  {
    if |lens| != 0 {
      UsedNext(lens[..|lens| - 1], n);
    }
  }

  lemma {:induction false} UsedIsFirst(lens: seq<nat>, n: nat)
    ensures CodeSpace(lens, n) == First(lens, n) + CountEq(lens, n)
  {
    if n == 0 {
      UsedNext(lens, 0);
    } else {
      UsedNext(lens, n - 1);
      UsedIsFirst(lens, n - 1);
    }
  }

  lemma {:induction false} UsedIsKraft(lens: seq<nat>, d: nat)
    requires forall i :: 0 <= i < |lens| ==> lens[i] <= d
    ensures CodeSpace(lens, d) == KraftSum(lens, d)
  {
    if |lens| == 0 {
      assert KraftShares(lens, d) == [];
    } else {
      UsedIsKraft(lens[..|lens| - 1], d);
      assert KraftShares(lens, d)[..|lens| - 1] == KraftShares(lens[..|lens| - 1], d);
    }
  }

  /** Doubling steps only add codes. */
  lemma {:induction false} FirstGrows(lens: seq<nat>, n: nat, m: nat)
    requires n < m
    ensures First(lens, m) >= Pow2(m - n) * (First(lens, n) + CountEq(lens, n))
  {
    hide CountEq;
    FirstNext(lens, m - 1);
    if n + 1 == m {
      assert Pow2(1) == 2;
    } else {
      hide First;
      FirstGrows(lens, n, m - 1);
      DoubleTimes(Pow2(m - 1 - n), First(lens, n) + CountEq(lens, n));
    }
  }

  lemma DoubleTimes(p: nat, x: nat)
    ensures (2 * p) * x == 2 * (p * x)
  {
  }

  lemma CodesFit(lens: seq<nat>, n: nat)
    requires Fits(lens) && n <= LONGEST
    ensures First(lens, n) + CountEq(lens, n) <= Pow2(n)
  {
    hide KraftSum, Pow2, First, CountEq, CodeSpace;
    UsedIsFirst(lens, LONGEST);
    UsedIsKraft(lens, LONGEST);
    if n < LONGEST {
      FirstGrows(lens, n, LONGEST);
      Pow2Add(LONGEST - n, n);
      CancelLeq(Pow2(LONGEST - n), First(lens, n) + CountEq(lens, n), Pow2(n));
    }
  }

  lemma CancelLeq(m: nat, x: nat, y: nat)
    requires m > 0 && m * x <= m * y
    ensures x <= y
  {
    if y < x {
      MulLess(y, x, m);
    }
  }

  lemma CodeInRange(lens: seq<nat>, i: nat)
    requires Fits(lens) && i < |lens|
    ensures First(lens, lens[i]) <= Code(lens, i) < First(lens, lens[i]) + CountEq(lens, lens[i]) <= Pow2(lens[i])
  {
    CountEqPrefix(lens, lens[i], i);
    CodesFit(lens, lens[i]);
  }

  /** The bits of symbol i's code. */
  function CodeBits(lens: seq<nat>, i: nat): (s: seq<bool>)
    requires i < |lens|
    ensures |s| == lens[i]
  {
    ToBits(Code(lens, i), lens[i])
  }

  // ---------- BZ2_hbAssignCodes ----------

  method AssignCodes(code: array<nat>, length: array<nat>, minLen: nat, maxLen: nat, alphaSize: nat)
    requires code != length && alphaSize <= code.Length && alphaSize <= length.Length
    requires minLen <= maxLen && forall i :: 0 <= i < alphaSize ==> minLen <= length[i] <= maxLen
    modifies code
    ensures forall i :: 0 <= i < alphaSize ==> code[i] == Code(length[..alphaSize], i)
  {
    hide First, CountEq;
    ghost var lens := length[..alphaSize];
    var vec := 0;
    NoCodesBelow(lens, minLen, minLen);
    for n := minLen to maxLen + 1
      invariant vec == First(lens, n)
      invariant forall i :: 0 <= i < alphaSize && lens[i] < n ==> code[i] == Code(lens, i)
    {
      CountEqNone(lens, n);
      for i := 0 to alphaSize
        invariant vec == First(lens, n) + CountEq(lens[..i], n)
        invariant forall x ::
            0 <= x < alphaSize && (lens[x] < n || (lens[x] == n && x < i)) ==> code[x] == Code(lens, x)
      {
        CountEqPush(lens, i, n);
        if length[i] == n {
          code[i] := vec;
          vec := vec + 1;
        }
      }
      assert lens[..alphaSize] == lens;
      FirstNext(lens, n);
      vec := vec * 2;
    }
  }

  lemma CountEqNone(lens: seq<nat>, n: nat)
    ensures CountEq(lens[..0], n) == 0
  {
  }

  lemma FirstNext(lens: seq<nat>, n: nat)
    ensures First(lens, n + 1) == 2 * (First(lens, n) + CountEq(lens, n))
  {
  }

  // ---------- BZ2_hbCreateDecodeTables ----------

  function MinLen(s: seq<nat>): nat {
    if |s| == 0 then 32
    else
      var m := MinLen(s[..|s| - 1]);
      if s[|s| - 1] < m then s[|s| - 1] else m
  }

  function MaxLen(s: seq<nat>): nat {
    if |s| == 0 then 0
    else
      var m := MaxLen(s[..|s| - 1]);
      if s[|s| - 1] > m then s[|s| - 1] else m
  }

  lemma {:induction false} MinMaxLen(lens: seq<nat>)
    requires ValidLengths(lens)
    ensures 1 <= MinLen(lens) <= MaxLen(lens) <= LONGEST
    ensures forall i :: 0 <= i < |lens| ==> MinLen(lens) <= lens[i] <= MaxLen(lens)
  {
    if |lens| > 1 {
      MinMaxLen(lens[..|lens| - 1]);
    }
    assert lens[|lens| - 1] <= LONGEST;
  }

  function LimitOf(lens: seq<nat>, n: nat): int {
    if MinLen(lens) <= n <= MaxLen(lens) then First(lens, n) + CountEq(lens, n) - 1 else 0
  }

  function BaseOf(lens: seq<nat>, n: nat): int {
    if MinLen(lens) <= n <= MaxLen(lens) then First(lens, n) - CountLess(lens, n) else CountLess(lens, n)
  }

  /** The decode tables of one coding table. */
  ghost predicate IsTables(limit: seq<int>, base: seq<int>, perm: seq<int>, lens: seq<nat>) {
    && BZ_MAX_CODE_LEN <= |limit| && BZ_MAX_CODE_LEN <= |base| && |lens| <= |perm|
    && (forall n :: 0 <= n <= LONGEST ==> limit[n] == LimitOf(lens, n))
    && (forall n :: 0 <= n <= LONGEST ==> base[n] == BaseOf(lens, n))
    && (forall i :: 0 <= i < |lens| ==> PermSlot(lens, i) < |lens| && perm[PermSlot(lens, i)] == i)
  }

  /** Where symbol i comes when symbols are listed by length, then by number. */
  function PermSlot(lens: seq<nat>, i: nat): nat
    requires i < |lens|
  {
    CountLess(lens, lens[i]) + CountEq(lens[..i], lens[i])
  }

  lemma PermSlotInRange(lens: seq<nat>, i: nat)
    requires i < |lens|
    ensures PermSlot(lens, i) < CountLess(lens, lens[i]) + CountEq(lens, lens[i]) <= |lens|
  {
    CountEqPrefix(lens, lens[i], i);
    CountLessNext(lens, lens[i]);
  }

  lemma PermSlotsDiffer(lens: seq<nat>, i: nat, j: nat)
    requires i < j < |lens|
    ensures PermSlot(lens, i) != PermSlot(lens, j)
  {
    PermSlotInRange(lens, i);
    PermSlotInRange(lens, j);
    var m, n := lens[i], lens[j];
    CountLessNext(lens, m);
    CountLessNext(lens, n);
    if m < n {
      CountMonotone(lens, m + 1, n);
    } else if n < m {
      CountMonotone(lens, n + 1, m);
    } else {
      CountEqPrefix(lens[..j], n, i);
      assert lens[..j][..i] == lens[..i];
    }
  }

  method CreateDecodeTables(limit: array<int>, base: array<int>, perm: array<int>, length: array<nat>,
                            minLen: nat, maxLen: nat, alphaSize: nat)
    requires limit != base && limit != perm && base != perm
    requires limit.Length >= BZ_MAX_CODE_LEN && base.Length >= BZ_MAX_CODE_LEN
    requires alphaSize <= perm.Length && alphaSize <= length.Length && ValidLengths(length[..alphaSize])
    requires minLen == MinLen(length[..alphaSize]) && maxLen == MaxLen(length[..alphaSize])
    modifies limit, base, perm
    ensures length[..] == old(length[..])
    ensures IsTables(limit[..], base[..], perm[..], length[..alphaSize])
  {
    hide First, CountEq, CountLess, PermSlot, MinLen, MaxLen, LimitOf, BaseOf;
    ghost var lens := length[..alphaSize];
    MinMaxLen(lens);
    FillPerm(perm, length, minLen, maxLen, alphaSize);
    CountLengths(base, length, alphaSize);
    FillLimit(limit, base, minLen, maxLen, lens);
    FillBase(limit, base, minLen, maxLen, lens);
    forall i | 0 <= i < alphaSize ensures PermSlot(lens, i) < alphaSize {
      PermSlotInRange(lens, i);
    }
  }

  method FillLimit(limit: array<int>, base: array<int>, minLen: nat, maxLen: nat, ghost lens: seq<nat>)
    requires limit != base && limit.Length >= BZ_MAX_CODE_LEN && base.Length >= BZ_MAX_CODE_LEN && ValidLengths(lens)
    requires minLen == MinLen(lens) && maxLen == MaxLen(lens)
    requires forall n :: 0 <= n < BZ_MAX_CODE_LEN ==> base[n] == CountLess(lens, n)
    modifies limit
    ensures forall n :: 0 <= n <= LONGEST ==> limit[n] == LimitOf(lens, n)
  {
    hide First, CountEq, CountLess, MinLen, MaxLen;
    MinMaxLen(lens);
    for i := 0 to BZ_MAX_CODE_LEN
      invariant forall n :: 0 <= n < i ==> limit[n] == 0
    {
      limit[i] := 0;
    }
    var vec := 0;
    NoCodesBelow(lens, minLen, minLen);
    for i := minLen to maxLen + 1
      invariant vec == First(lens, i)
      invariant forall n :: minLen <= n < i ==> limit[n] == First(lens, n) + CountEq(lens, n) - 1
      invariant forall n :: 0 <= n < BZ_MAX_CODE_LEN && (n < minLen || i <= n) ==> limit[n] == 0
    {
      CountLessNext(lens, i);
      vec := vec + (base[i + 1] - base[i]);
      limit[i] := vec - 1;
      FirstNext(lens, i);
      vec := vec * 2;
    }
  }

  method FillBase(limit: array<int>, base: array<int>, minLen: nat, maxLen: nat, ghost lens: seq<nat>)
    requires limit != base && limit.Length >= BZ_MAX_CODE_LEN && base.Length >= BZ_MAX_CODE_LEN && ValidLengths(lens)
    requires minLen == MinLen(lens) && maxLen == MaxLen(lens)
    requires forall n :: 0 <= n <= LONGEST ==> limit[n] == LimitOf(lens, n)
    requires forall n :: 0 <= n < BZ_MAX_CODE_LEN ==> base[n] == CountLess(lens, n)
    modifies base
    ensures forall n :: 0 <= n <= LONGEST ==> base[n] == BaseOf(lens, n)
  {
    hide First, CountEq, CountLess, MinLen, MaxLen;
    MinMaxLen(lens);
    NoCodesBelow(lens, minLen, minLen);
    for i := minLen + 1 to maxLen + 1
      invariant forall n :: 0 <= n < BZ_MAX_CODE_LEN && (n <= minLen || i <= n) ==> base[n] == CountLess(lens, n)
      invariant forall n :: minLen < n < i ==> base[n] == First(lens, n) - CountLess(lens, n)
    {
      FirstNext(lens, i - 1);
      assert limit[i - 1] == LimitOf(lens, i - 1);
      base[i] := (limit[i - 1] + 1) * 2 - base[i];
    }
  }

  method FillPerm(perm: array<int>, length: array<nat>, minLen: nat, maxLen: nat, alphaSize: nat)
    requires alphaSize <= perm.Length && alphaSize <= length.Length
    requires minLen <= maxLen && forall i :: 0 <= i < alphaSize ==> minLen <= length[i] <= maxLen
    modifies perm
    ensures var lens := length[..alphaSize];
            forall i :: 0 <= i < alphaSize ==> PermSlot(lens, i) < alphaSize && perm[PermSlot(lens, i)] == i
  {
    hide CountEq, CountLess, PermSlot;
    ghost var lens := length[..alphaSize];
    forall i | 0 <= i < alphaSize ensures PermSlot(lens, i) < alphaSize {
      PermSlotInRange(lens, i);
    }
    var pp := 0;
    NoCodesBelow(lens, minLen, minLen);
    for i := minLen to maxLen + 1
      invariant pp == CountLess(lens, i)
      invariant forall x :: 0 <= x < alphaSize && lens[x] < i ==> perm[PermSlot(lens, x)] == x
    {
      CountEqNone(lens, i);
      for j := 0 to alphaSize
        invariant pp == CountLess(lens, i) + CountEq(lens[..j], i)
        invariant forall x ::
            0 <= x < alphaSize && (lens[x] < i || (lens[x] == i && x < j)) ==> perm[PermSlot(lens, x)] == x
      {
        CountEqPush(lens, j, i);
        if length[j] == i {
          SlotIs(lens, j);
          forall x | 0 <= x < alphaSize && x != j ensures PermSlot(lens, x) != PermSlot(lens, j) {
            if x < j { PermSlotsDiffer(lens, x, j); } else { PermSlotsDiffer(lens, j, x); }
          }
          perm[pp] := j;
          pp := pp + 1;
        }
      }
      assert lens[..alphaSize] == lens;
      CountLessNext(lens, i);
    }
  }

  lemma SlotIs(lens: seq<nat>, i: nat)
    requires i < |lens|
    ensures PermSlot(lens, i) == CountLess(lens, lens[i]) + CountEq(lens[..i], lens[i]) < |lens|
  {
    PermSlotInRange(lens, i);
  }

  /** Fills base with the numbers of codes shorter than each length. */
  method CountLengths(base: array<int>, length: array<nat>, alphaSize: nat)
    requires base.Length >= BZ_MAX_CODE_LEN && alphaSize <= length.Length
    requires forall i :: 0 <= i < alphaSize ==> 1 <= length[i] <= LONGEST
    modifies base
    ensures forall n :: 0 <= n < BZ_MAX_CODE_LEN ==> base[n] == CountLess(length[..alphaSize], n)
  {
    hide CountEq, CountLess;
    ghost var lens := length[..alphaSize];
    for i := 0 to BZ_MAX_CODE_LEN
      invariant forall n :: 0 <= n < i ==> base[n] == 0
    {
      base[i] := 0;
    }
    forall n: nat ensures CountEq(lens[..0], n) == 0 { CountEqNone(lens, n); }
    for i := 0 to alphaSize
      invariant base[0] == 0 && forall n :: 1 <= n < BZ_MAX_CODE_LEN ==> base[n] == CountEq(lens[..i], n - 1)
    {
      forall n: nat ensures CountEq(lens[..i + 1], n) == CountEq(lens[..i], n) + if lens[i] == n then 1 else 0 {
        CountEqPush(lens, i, n);
      }
      base[length[i] + 1] := base[length[i] + 1] + 1;
    }
    assert lens[..alphaSize] == lens;
    CountLessNext(lens, 0);
    for i := 1 to BZ_MAX_CODE_LEN
      invariant forall n :: 0 <= n < i ==> base[n] == CountLess(lens, n)
      invariant forall n :: i <= n < BZ_MAX_CODE_LEN ==> base[n] == CountEq(lens, n - 1)
    {
      CountLessNext(lens, i - 1);
      base[i] := base[i] + base[i - 1];
    }
  }

  // ---------- looking a code up ----------

  datatype Look = More | Bad | Symbol(sym: int)

  /** What GET_MTF_VAL decides when it has read zn bits of value zvec. */
  function LookUp(limit: seq<int>, base: seq<int>, perm: seq<int>, zn: nat, zvec: int): Look
    requires |limit| > LONGEST && |base| > LONGEST && |perm| == BZ_MAX_ALPHA_SIZE
  {
    if zn > LONGEST then Bad
    else if zvec > limit[zn] then More
    else if zvec - base[zn] < 0 || zvec - base[zn] >= BZ_MAX_ALPHA_SIZE then Bad
    else Symbol(perm[zvec - base[zn]])
  }

  /** The symbol in slot x of the list ordered by code length. */
  function PermAt(lens: seq<nat>, x: nat, k: nat): nat
    requires k <= |lens|
  {
    if k == 0 then 0 else if PermSlot(lens, k - 1) == x then k - 1 else PermAt(lens, x, k - 1)
  }

  /** The look-up by code lengths alone, without the tables. */
  function LookLens(lens: seq<nat>, zn: nat, zvec: nat): Look {
    if zn > LONGEST then Bad
    else if zvec > LimitOf(lens, zn) then More
    else
      var x := zvec - BaseOf(lens, zn);
      if x < 0 || x >= BZ_MAX_ALPHA_SIZE then Bad else Symbol(PermAt(lens, x, |lens|))
  }

  lemma {:induction false} PermAtFinds(lens: seq<nat>, i: nat, k: nat)
    requires i < k <= |lens|
    ensures PermAt(lens, PermSlot(lens, i), k) == i
  {
    hide PermSlot;
    if i < k - 1 {
      PermSlotsDiffer(lens, i, k - 1);
      PermAtFinds(lens, i, k - 1);
    }
  }

  /** A slot within the alphabet belongs to some symbol. */
  lemma SlotTaken(lens: seq<nat>, x: nat) returns (i: nat)
    requires x < |lens|
    ensures i < |lens| && PermSlot(lens, i) == x
  {
    hide PermSlot;
    var slots := seq(|lens|, i requires 0 <= i < |lens| => PermSlot(lens, i));
    forall i | 0 <= i < |lens| ensures slots[i] < |lens| { SlotIs(lens, i); }
    forall i, j | 0 <= i < j < |lens| ensures slots[i] != slots[j] { PermSlotsDiffer(lens, i, j); }
    PermutationOnto(slots, |lens|, x);
    i :| i < |lens| && slots[i] == x;
  }

  /** The tables give the look-up by lengths: every slot they can point at
      holds the symbol of that slot. */
  lemma TablesGiveLookUp(limit: seq<int>, base: seq<int>, perm: seq<int>, lens: seq<nat>, zn: nat, zvec: nat)
    requires IsTables(limit, base, perm, lens) && |perm| == BZ_MAX_ALPHA_SIZE
    requires |lens| > 0
    ensures LookUp(limit, base, perm, zn, zvec) == LookLens(lens, zn, zvec)
  {
    hide First, CountEq, CountLess, PermSlot, PermAt, MinLen, MaxLen;
    CountLessNext(lens, zn);
    if zn <= LONGEST && zvec <= LimitOf(lens, zn) && zvec - BaseOf(lens, zn) >= 0 {
      var x: nat := zvec - BaseOf(lens, zn);
      var i := SlotTaken(lens, x);
      PermAtFinds(lens, i, |lens|);
    }
  }

  /** What is kept of one coding table to decode with. */
  datatype Tables = Tables(minLen: nat, limit: seq<int>, base: seq<int>, perm: seq<int>)

  ghost predicate TablesFor(ts: Tables, lens: seq<nat>) {
    IsTables(ts.limit, ts.base, ts.perm, lens) && |ts.perm| == BZ_MAX_ALPHA_SIZE && ts.minLen == MinLen(lens)
  }

  /** The shortest and the longest length are found, and the tables made. */
  method MakeTables(lens: seq<nat>) returns (ts: Tables)
    requires ValidLengths(lens)
    ensures TablesFor(ts, lens)
  {
    hide IsTables;
    var length := new nat[|lens|](i requires 0 <= i < |lens| => lens[i]);
    var limit, base, perm := new int[BZ_MAX_ALPHA_SIZE], new int[BZ_MAX_ALPHA_SIZE], new int[BZ_MAX_ALPHA_SIZE];
    var minLen, maxLen := 32, 0;
    for i := 0 to |lens|
      invariant minLen == MinLen(lens[..i]) && maxLen == MaxLen(lens[..i])
      modifies {}
    {
      assert lens[..i + 1][..i] == lens[..i];
      if length[i] > maxLen {
        maxLen := length[i];
      }
      if length[i] < minLen {
        minLen := length[i];
      }
    }
    assert lens[..|lens|] == lens == length[..|lens|];
    CreateDecodeTables(limit, base, perm, length, minLen, maxLen, |lens|);
    ts := Tables(minLen, limit[..], base[..], perm[..]);
  }

  lemma ShorterPrefixPasses(lens: seq<nat>, i: nat, n: nat)
    requires i < |lens| && n < lens[i]
    ensures Code(lens, i) / Pow2(lens[i] - n) >= First(lens, n) + CountEq(lens, n)
  {
    var m, x := Pow2(lens[i] - n), First(lens, n) + CountEq(lens, n);
    FirstGrows(lens, n, lens[i]);
    QuotientAtLeast(Code(lens, i), m, x);
  }

  lemma QuotientAtLeast(a: nat, m: nat, x: nat)
    requires m > 0 && a >= m * x
    ensures a / m >= x
  {
    var q := a / m;
    assert a < m * q + m;
    if q < x {
      MulLess(q, x, m);
    }
  }

  /** Main result: reading the bits of a code, the look-up asks for more before
      the last bit and gives the symbol at the last bit. */
  lemma LookUpFindsSymbol(lens: seq<nat>, i: nat, n: nat)
    requires Fits(lens) && i < |lens| && MinLen(lens) <= n <= lens[i]
    ensures LookLens(lens, n, Val(CodeBits(lens, i)[..n])) == if n < lens[i] then More else Symbol(i)
  {
    hide First, CountEq, CountLess, Val, KraftSum, MinLen, MaxLen, PermAt;
    MinMaxLen(lens);
    var bits := CodeBits(lens, i);
    CodeInRange(lens, i);
    ValToBits(Code(lens, i), lens[i]);
    if n < lens[i] {
      ValSplit(bits, n);
      ShorterPrefixPasses(lens, i, n);
    } else {
      assert bits[..n] == bits;
      SlotIs(lens, i);
      PermAtFinds(lens, i, |lens|);
    }
  }

  datatype Fetched = Starved | NoCode | Got(sym: int, rest: seq<bool>)

  /** The loop of GET_MTF_VAL when zn bits of value zvec have been read. */
  function Fetch(ts: Tables, zn: nat, zvec: nat, bits: seq<bool>): Fetched
    requires |ts.limit| > LONGEST && |ts.base| > LONGEST && |ts.perm| == BZ_MAX_ALPHA_SIZE
    decreases |bits|
  {
    match LookUp(ts.limit, ts.base, ts.perm, zn, zvec)
    case Bad => NoCode
    case Symbol(s) => Got(s, bits)
    case More => if |bits| == 0 then Starved else Fetch(ts, zn + 1, 2 * zvec + (if bits[0] then 1 else 0), bits[1..])
  }

  /** GET_MTF_VAL on the bits to come. */
  function GetMtfVal(ts: Tables, bits: seq<bool>): Fetched
    requires |ts.limit| > LONGEST && |ts.base| > LONGEST && |ts.perm| == BZ_MAX_ALPHA_SIZE
  {
    if |bits| < ts.minLen then Starved else Fetch(ts, ts.minLen, Val(bits[..ts.minLen]), bits[ts.minLen..])
  }

  lemma {:induction false} FetchFinishes(ts: Tables, lens: seq<nat>, i: nat, n: nat, rest: seq<bool>)
    requires Fits(lens) && TablesFor(ts, lens) && i < |lens| && MinLen(lens) <= n <= lens[i]
    ensures Fetch(ts, n, Val(CodeBits(lens, i)[..n]), CodeBits(lens, i)[n..] + rest) == Got(i, rest)
    decreases lens[i] - n
  {
    hide LookLens, MinLen, LookUp, Code, KraftSum;
    var bits := CodeBits(lens, i);
    LookUpFindsSymbol(lens, i, n);
    TablesGiveLookUp(ts.limit, ts.base, ts.perm, lens, n, Val(bits[..n]));
    if n < lens[i] {
      assert bits[..n + 1][..n] == bits[..n] && bits[n..] + rest == [bits[n]] + (bits[n + 1..] + rest);
      FetchFinishes(ts, lens, i, n + 1, rest);
    } else {
      assert bits[n..] + rest == rest;
    }
  }

  /** Main result: fed the bits of a symbol's code and then anything, the tables
      give that symbol and leave the rest unread. */
  lemma TablesDecode(ts: Tables, lens: seq<nat>, i: nat, rest: seq<bool>)
    requires Fits(lens) && TablesFor(ts, lens) && i < |lens|
    ensures GetMtfVal(ts, CodeBits(lens, i) + rest) == Got(i, rest)
  {
    hide Fetch, CodeBits, KraftSum, MinLen, MaxLen;
    MinMaxLen(lens);
    var bits, n := CodeBits(lens, i), MinLen(lens);
    assert (bits + rest)[..n] == bits[..n] && (bits + rest)[n..] == bits[n..] + rest;
    FetchFinishes(ts, lens, i, n, rest);
  }

  lemma SameLengthCodesDiffer(lens: seq<nat>, i: nat, j: nat)
    requires i < j < |lens| && lens[i] == lens[j]
    ensures Code(lens, i) < Code(lens, j)
  {
    hide First;
    CountEqPrefix(lens[..j], lens[i], i);
    assert lens[..j][..i] == lens[..i];
  }

  /** Codes of different symbols: neither starts the other. */
  lemma PrefixFree(lens: seq<nat>, i: nat, j: nat)
    requires Fits(lens) && i < |lens| && j < |lens| && i != j
    ensures !(CodeBits(lens, i) <= CodeBits(lens, j))
  {
    hide First, CountEq, Val, KraftSum, Code;
    var a, b, n := CodeBits(lens, i), CodeBits(lens, j), lens[i];
    CodeInRange(lens, i);
    CodeInRange(lens, j);
    ValToBits(Code(lens, i), n);
    ValToBits(Code(lens, j), lens[j]);
    if a <= b {
      assert b[..n] == a;
      if n < lens[j] {
        ValSplit(b, n);
        ShorterPrefixPasses(lens, j, n);
      } else {
        assert a == b;
        SameLengthCodesDiffer(lens, if i < j then i else j, if i < j then j else i);
      }
    }
  }
}
