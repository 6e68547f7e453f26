/** How the decoder stores and builds the inverse transform: in one word per
    row (FAST), or in a 16-bit and a packed 4-bit array (SMALL). */
module BwtStorage {
  import opened Words
  import opened Counting
  import opened Cyclic
  import opened InverseBwt

  /** The largest block: nine times 100000 bytes. */
  const MAX_BLOCK := 900000

  /** Running totals of the character counts. The check on the result never
      fails when the counts are those of the last column. */
  method SetUpCftab(cftab: array<int>, unzftab: array<int>, nblock: int, ghost l: seq<byte>) returns (ok: bool)
    requires cftab.Length == 257 && unzftab.Length == 256 && cftab != unzftab
    requires nblock == |l| && forall c :: 0 <= c < 256 ==> unzftab[c] == CountEq(l, c)
    modifies cftab
    ensures ok && forall c :: 0 <= c <= 256 ==> cftab[c] == CountLess(l, c)
  {
    cftab[0] := 0;
    for i := 1 to 257
      invariant cftab[0] == 0 && forall c :: 1 <= c < i ==> cftab[c] == unzftab[c - 1]
    {
      cftab[i] := unzftab[i - 1];
    }
    CountLessNext(l, 0);
    for i := 1 to 257
      invariant forall c :: 0 <= c < i ==> cftab[c] == CountLess(l, c)
      invariant forall c :: i <= c <= 256 ==> cftab[c] == unzftab[c - 1]
    {
      CountLessNext(l, i - 1);
      cftab[i] := cftab[i] + cftab[i - 1];
    }
    ok := true;
    for i := 0 to 257
      invariant ok
    {
      if cftab[i] < 0 || cftab[i] > nblock {
        ok := false;
      }
    }
  }

  // ---------- FAST ----------

  /** Low byte: the last column; the rest: the row that Rank sends here. */
  ghost predicate IsFastTable(tt: seq<nat>, l: seq<byte>) {
    |l| <= |tt| && forall x {:trigger tt[x]} :: 0 <= x < |l| ==> tt[x] == 256 * Unrank(l, x) + l[x]
  }

  /** The table after i rows have been linked. */
  ghost predicate Linked(tt: seq<nat>, l: seq<byte>, i: nat) {
    && |l| <= |tt|
    && forall x {:trigger tt[x]} ::
       0 <= x < |l| ==> tt[x] == 256 * (if Unrank(l, x) < i then Unrank(l, x) else 0) + l[x]
  }

  /** The next free row of every character after i rows. */
  ghost predicate FreeRows(cftab: seq<int>, l: seq<byte>, i: nat)
    requires i <= |l|
  {
    |cftab| == 257 && forall c :: 0 <= c < 256 ==> cftab[c] == CountLess(l, c) + CountEq(l[..i], c)
  }

  lemma FreeRowsStep(cftab: seq<int>, l: seq<byte>, i: nat)
    requires i < |l| && FreeRows(cftab, l, i)
    ensures cftab[l[i]] == Rank(l, i)
    ensures FreeRows(cftab[l[i] := cftab[l[i]] + 1], l, i + 1)
  {
    forall c | 0 <= c < 256
      ensures CountEq(l[..i + 1], c) == CountEq(l[..i], c) + (if l[i] == c then 1 else 0)
    {
      CountEqPush(l, i, c);
    }
  }

  lemma LinkRead(tt: seq<nat>, l: seq<byte>, i: nat)
    requires i < |l| && Linked(tt, l, i)
    ensures BitAnd(tt[i], 0xff) == l[i]
  {
    hide BitAnd, Rank, Unrank;
    AndConstants(tt[i]);
    var q := if Unrank(l, i) < i then Unrank(l, i) else 0;
    assert tt[i] == 256 * q + l[i];
    SplitWord(q, l[i]);
  }

  lemma LinkStep(tt: seq<nat>, l: seq<byte>, i: nat)
    requires i < |l| && Linked(tt, l, i)
    ensures var x := Rank(l, i);
            x < |l| && Linked(tt[x := BitOr(tt[x], i * 256)], l, i + 1)
  {
    hide BitOr, Rank, Unrank;
    var x := Rank(l, i);
    UnrankRank(l, i);
    assert tt[x] == l[x];
    Pow2Values();
    OrCommutes(tt[x], i * 256);
    OrIsAdd(i, 8, tt[x]);
  }

  lemma LinkEnds(tt: seq<nat>, cftab: seq<int>, l: seq<byte>)
    requires |l| <= |tt| && |cftab| == 257
    ensures (forall x :: 0 <= x < |l| ==> tt[x] == l[x]) ==> Linked(tt, l, 0)
    ensures (forall c :: 0 <= c <= 256 ==> cftab[c] == CountLess(l, c)) ==> FreeRows(cftab, l, 0)
    ensures Linked(tt, l, |l|) ==> IsFastTable(tt, l)
  {
    hide CountLess, Unrank;
    assert l[..0] == [];
  }

  method InvertFast(tt: array<nat>, cftab: array<int>, nblock: int, ghost l: seq<byte>)
    requires cftab.Length == 257 && nblock == |l| <= tt.Length && |l| <= MAX_BLOCK
    requires forall c :: 0 <= c <= 256 ==> cftab[c] == CountLess(l, c)
    requires forall x :: 0 <= x < nblock ==> tt[x] == l[x]
    modifies tt, cftab
    ensures IsFastTable(tt[..], l)
  {
    hide BitAnd, BitOr, Rank, Unrank, Linked, FreeRows, CountLess, IsFastTable;
    LinkEnds(tt[..], cftab[..], l);
    for i := 0 to nblock
      invariant FreeRows(cftab[..], l, i) && Linked(tt[..], l, i)
    {
      LinkRead(tt[..], l, i);
      LinkStep(tt[..], l, i);
      FreeRowsStep(cftab[..], l, i);
      var uc := BitAnd(tt[i], 0xff);
      var x := cftab[uc];
      ghost var tt', cftab' := tt[..][x := BitOr(tt[x], i * 256)], cftab[..][uc := x + 1];
      tt[x] := BitOr(tt[x], i * 256);
      cftab[uc] := cftab[uc] + 1;
      assert tt[..] == tt' && cftab[..] == cftab';
    }
    LinkEnds(tt[..], cftab[..], l);
  }

  /** One read through the FAST table: the character of the row, and the next
      row. */
  function GetFast(tt: seq<nat>, tPos: nat): (r: (byte, nat))
    requires tPos < |tt|
  {
    (tt[tPos] % 256, tt[tPos] / 256)
  }

  lemma FastReads(tt: seq<nat>, l: seq<byte>, origPtr: nat, k: nat)
    requires IsFastTable(tt, l) && origPtr < |l|
    ensures tt[origPtr] / 256 == Row(l, origPtr, 1)
    ensures GetFast(tt, Row(l, origPtr, k + 1)) == (WalkChar(l, origPtr, k), Row(l, origPtr, k + 2))
  {
    hide Unrank;
    var x, y := Row(l, origPtr, k + 1), Row(l, origPtr, 0);
    assert Row(l, origPtr, k + 2) == Unrank(l, x);
    assert Row(l, origPtr, 1) == Unrank(l, y);
    SplitWord(Unrank(l, x), l[x]);
    SplitWord(Unrank(l, y), l[y]);
    assert tt[x] % 256 == l[x] && tt[x] / 256 == Unrank(l, x);
  }

  lemma SplitWord(q: nat, c: byte)
    ensures (256 * q + c) / 256 == q && (256 * q + c) % 256 == c
  {
  }

  // ---------- SMALL ----------

  function Nibble(ll4: seq<nat>, i: nat): nat
    requires i / 2 < |ll4|
  {
    BitAnd(ll4[i / 2] / (if i % 2 == 0 then 1 else 16), 0xf)
  }

  /** The 20-bit entry: low 16 bits in ll16, high 4 bits in ll4. */
  function GetLL(ll16: seq<nat>, ll4: seq<nat>, i: nat): nat
    requires i < |ll16| && i / 2 < |ll4|
  {
    BitOr(ll16[i], Nibble(ll4, i) * 0x10000)
  }

  /** Storing a nibble keeps the other nibble of the byte. */
  lemma LowNibbleStored(w: nat, n: nat)
    requires w < 256 && n < 16
    ensures var v := BitOr(BitAnd(w, 0xf0), n);
            v < 256 && BitAnd(v, 0xf) == n && v / 16 == w / 16
  {
    hide BitAnd, BitOr;
    Pow2Values();
    AndHighNibble(w);
    OrIsAdd(w / 16, 4, n);
    AndMask(w / 16 * 16 + n, 4);
  }

  lemma HighNibbleStored(w: nat, n: nat)
    requires w < 256 && n < 16
    ensures var v := BitOr(BitAnd(w, 0x0f), n * 16);
            v < 256 && BitAnd(v / 16, 0xf) == n && BitAnd(v, 0xf) == BitAnd(w, 0xf)
  {
    hide BitAnd, BitOr;
    Pow2Values();
    AndMask(w, 4);
    OrCommutes(w % 16, n * 16);
    OrIsAdd(n, 4, w % 16);
    AndMask(n * 16 + w % 16, 4);
    AndMask(n, 4);
  }

  /** All the entries of the split array. */
  ghost function Links(ll16: seq<nat>, ll4: seq<nat>): (t: seq<nat>)
    requires |ll16| <= 2 * |ll4|
    ensures |t| == |ll16| && forall i :: 0 <= i < |t| ==> t[i] == GetLL(ll16, ll4, i)
  {
    seq(|ll16|, i requires 0 <= i < |ll16| => GetLL(ll16, ll4, i))
  }

  ghost predicate AreBytes(a: seq<nat>) {
    forall x :: 0 <= x < |a| ==> a[x] < 256
  }

  /** The effect of the two stores on the entries. */
  lemma EntryStored(ll16: seq<nat>, ll4: seq<nat>, i: nat, n: nat)
    requires i < |ll16| <= 2 * |ll4| && n < 0x10_0000 && AreBytes(ll4)
    ensures var w, high := ll4[i / 2], n / 0x10000;
            var v := if i % 2 == 0 then BitOr(BitAnd(w, 0xf0), high) else BitOr(BitAnd(w, 0x0f), high * 16);
            var a, b := ll16[i := BitAnd(n, 0xffff)], ll4[i / 2 := v];
            && BitAnd(n, 0xffff) == n % 0x10000
            && AreBytes(b) && Links(a, b) == Links(ll16, ll4)[i := n]
  {
    hide BitAnd, BitOr;
    var w, high := ll4[i / 2], n / 0x10000;
    LowNibbleStored(w, high);
    HighNibbleStored(w, high);
    AndConstants(n);
    Pow2Values();
    OrCommutes(n % 0x10000, high * 0x10000);
    OrIsAdd(high, 16, n % 0x10000);
    var v := if i % 2 == 0 then BitOr(BitAnd(w, 0xf0), high) else BitOr(BitAnd(w, 0x0f), high * 16);
    var a, b := ll16[i := BitAnd(n, 0xffff)], ll4[i / 2 := v];
    assert Nibble(b, i) == high;
    forall x | 0 <= x < |ll16| && x != i ensures GetLL(a, b, x) == GetLL(ll16, ll4, x) {
      assert x / 2 == i / 2 ==> x % 2 != i % 2;
    }
  }

  method SetLL(ll16: array<nat>, ll4: array<nat>, i: nat, n: nat)
    requires ll16 != ll4 && i < ll16.Length <= 2 * ll4.Length
    requires n < 0x10_0000 && AreBytes(ll4[..])
    modifies ll16, ll4
    ensures AreBytes(ll4[..])
    ensures ll16[..] == old(ll16[..])[i := n % 0x10000]
    ensures Links(ll16[..], ll4[..]) == old(Links(ll16[..], ll4[..]))[i := n]
  {
    hide BitAnd, BitOr;
    var w, high := ll4[i / 2], n / 0x10000;
    ghost var a, b := ll16[..], ll4[..];
    var v;
    if i % 2 == 0 {
      v := BitOr(BitAnd(w, 0xf0), high);
    } else {
      v := BitOr(BitAnd(w, 0x0f), high * 16);
    }
    EntryStored(a, b, i, n);
    ll16[i] := BitAnd(n, 0xffff);
    ll4[i / 2] := v;
    assert ll16[..] == a[i := BitAnd(n, 0xffff)] && ll4[..] == b[i / 2 := v];
  }

  /** First SMALL pass: the rank map itself. */
  method ComputeT(ll16: array<nat>, ll4: array<nat>, cftab: array<int>, cftabCopy: array<int>,
                  nblock: int, ghost l: seq<byte>)
    requires cftab.Length == 257 && cftabCopy.Length == 257 && cftab != cftabCopy && ll16 != ll4
    requires nblock == |l| <= ll16.Length <= 2 * ll4.Length && |l| <= MAX_BLOCK
    requires forall c :: 0 <= c <= 256 ==> cftab[c] == CountLess(l, c)
    requires AreBytes(ll4[..]) && forall x :: 0 <= x < nblock ==> ll16[x] == l[x]
    modifies ll16, ll4, cftabCopy
    ensures AreBytes(ll4[..])
    ensures forall x :: 0 <= x < nblock ==> Links(ll16[..], ll4[..])[x] == Rank(l, x)
  {
    for i := 0 to 257
      invariant forall c :: 0 <= c < i ==> cftabCopy[c] == cftab[c]
      modifies cftabCopy
    {
      cftabCopy[i] := cftab[i];
    }
    for i := 0 to nblock
      invariant AreBytes(ll4[..]) && FreeRows(cftabCopy[..], l, i)
      invariant forall x :: i <= x < nblock ==> ll16[x] == l[x]
      invariant forall x :: 0 <= x < i ==> Links(ll16[..], ll4[..])[x] == Rank(l, x)
    {
      hide Rank, CountLess, CountEq, GetLL;
      var uc := ll16[i] % 256;
      RankIsSize(l, i);
      FreeRowsStep(cftabCopy[..], l, i);
      ghost var next := cftabCopy[..][uc := cftabCopy[uc] + 1];
      SetLL(ll16, ll4, i, cftabCopy[uc]);
      cftabCopy[uc] := cftabCopy[uc] + 1;
      assert cftabCopy[..] == next;
    }
  }

  /** Distinct rows, each sent to the next by the rank map. */
  ghost predicate IsPath(l: seq<byte>, path: seq<nat>) {
    && |path| > 0
    && (forall i :: 0 <= i < |path| ==> path[i] < |l|)
    && Distinct(path)
    && (forall i :: 0 < i < |path| ==> path[i] == Rank(l, path[i - 1]))
  }

  lemma PathFits(l: seq<byte>, path: seq<nat>)
    requires IsPath(l, path)
    ensures |path| <= |l|
  {
    var rows := Range(0, |path|);
    ImageExact(path, rows);
    SubsetSize(Image(path, rows), Range(0, |l|));
  }

  /** Following the map from the end of a path leaves it, or closes the cycle. */
  lemma PathStep(l: seq<byte>, path: seq<nat>, j: nat)
    requires IsPath(l, path) && j == Rank(l, path[|path| - 1])
    ensures j < |l| && Unrank(l, j) == path[|path| - 1]
    ensures j != path[0] ==> IsPath(l, path + [j]) && j !in path
  {
    var i := path[|path| - 1];
    UnrankRank(l, i);
    if j != path[0] {
      forall t | 0 <= t < |path| ensures path[t] != j {
        if t > 0 && path[t] == j {
          RankInjective(l, path[t - 1], i);
        }
      }
    }
  }

  /** The rows of the path after the first point back; all others still point
      forward. */
  ghost predicate Reversed(l: seq<byte>, path: seq<nat>, t: seq<nat>)
    requires IsPath(l, path)
  {
    && |l| <= |t|
    && (forall k :: 0 < k < |path| ==> t[path[k]] == path[k - 1])
    && (forall x :: 0 <= x < |l| && x !in path[1..] ==> t[x] == Rank(l, x))
  }

  lemma ReverseStep(l: seq<byte>, path: seq<nat>, t: seq<nat>, j: nat)
    requires IsPath(l, path) && Reversed(l, path, t) && j == Rank(l, path[|path| - 1])
    ensures j < |l| && t[j] < |l|
    ensures j != path[0] ==> t[j] == Rank(l, j) && IsPath(l, path + [j]) && |path| < |l|
                             && Reversed(l, path + [j], t[j := path[|path| - 1]])
    ensures j == path[0] ==> OnCycle(l, t[j := path[|path| - 1]], set k | 0 <= k < |path| :: path[k])
  {
    PathStep(l, path, j);
    RankIsSize(l, j);
    var i, t' := path[|path| - 1], t[j := path[|path| - 1]];
    assert forall k :: 0 < k < |path| ==> path[k] == path[1..][k - 1];
    if j != path[0] {
      PathFits(l, path + [j]);
      assert (path + [j])[1..] == path[1..] + [j];
    } else {
      CloseCycle(l, path, t');
    }
  }

  lemma CloseCycle(l: seq<byte>, path: seq<nat>, t: seq<nat>)
    requires IsPath(l, path) && path[0] == Rank(l, path[|path| - 1]) && |l| <= |t|
    requires forall k :: 0 <= k < |path| ==> t[path[k]] == path[if k == 0 then |path| - 1 else k - 1]
    ensures OnCycle(l, t, set k | 0 <= k < |path| :: path[k])
  {
    hide Unrank, Rank;
    var cycle := set k | 0 <= k < |path| :: path[k];
    forall x | x in cycle ensures x < |l| && Unrank(l, x) in cycle && t[x] == Unrank(l, x) {
      var k :| 0 <= k < |path| && path[k] == x;
      var p := if k == 0 then |path| - 1 else k - 1;
      UnrankRank(l, path[p]);
      assert path[p] in cycle;
    }
  }

  ghost predicate OnCycle(l: seq<byte>, t: seq<nat>, cycle: set<nat>) {
    |l| <= |t| && forall x :: x in cycle ==> x < |l| && Unrank(l, x) in cycle && t[x] == Unrank(l, x)
  }

  ghost predicate CycleStored(ll16: array<nat>, ll4: array<nat>, l: seq<byte>, cycle: set<nat>)
    reads ll16, ll4
  {
    ll16.Length <= 2 * ll4.Length && OnCycle(l, Links(ll16[..], ll4[..]), cycle)
  }

  /** Second SMALL pass: reverse the pointers of the cycle through origPtr. */
  method ReversePointers(ll16: array<nat>, ll4: array<nat>, origPtr: nat, ghost l: seq<byte>)
      returns (ghost cycle: set<nat>)
    requires ll16 != ll4 && origPtr < |l| <= ll16.Length <= 2 * ll4.Length && |l| <= MAX_BLOCK
    requires AreBytes(ll4[..])
    requires forall x :: 0 <= x < |l| ==> Links(ll16[..], ll4[..])[x] == Rank(l, x)
    modifies ll16, ll4
    ensures origPtr in cycle && CycleStored(ll16, ll4, l, cycle) && AreBytes(ll4[..])
  {
    var i := origPtr;
    var j := GetLL(ll16[..], ll4[..], i);
    ghost var path := [origPtr];
    while true
      invariant IsPath(l, path) && path[0] == origPtr && i == path[|path| - 1] && j == Rank(l, i)
      invariant AreBytes(ll4[..]) && Reversed(l, path, Links(ll16[..], ll4[..]))
      decreases |l| - |path|
    {
      ReverseStep(l, path, Links(ll16[..], ll4[..]), j);
      var tmp := GetLL(ll16[..], ll4[..], j);
      SetLL(ll16, ll4, j, i);
      i := j;
      j := tmp;
      if i == origPtr { break; }
      path := path + [i];
    }
    cycle := set k | 0 <= k < |path| :: path[k];
    assert path[0] in cycle;
  }

  /** Binary search for the character whose rows include indx. */
  method IndexIntoF(indx: int, cftab: seq<int>, ghost l: seq<byte>) returns (nb: nat)
    requires |cftab| == 257 && 0 <= indx < |l|
    requires forall c :: 0 <= c <= 256 ==> cftab[c] == CountLess(l, c)
    ensures nb == l[Unrank(l, indx)]
  {
    nb := 0;
    var na := 256;
    CountLessAll(l, 256);
    CountLessNext(l, 0);
    var mid := (nb + na) / 2;
    if indx >= cftab[mid] { nb := mid; } else { na := mid; }
    while na - nb != 1
      invariant 0 <= nb < na <= 256
      invariant CountLess(l, nb) <= indx < CountLess(l, na)
    {
      mid := (nb + na) / 2;
      if indx >= cftab[mid] { nb := mid; } else { na := mid; }
    }
    RowInBucket(l, indx, nb);
  }

  lemma RowInBucket(l: seq<byte>, x: nat, c: nat)
    requires x < |l| && CountLess(l, c) <= x < CountLess(l, c + 1)
    ensures l[Unrank(l, x)] == c
  {
    var i := Unrank(l, x);
    var d := l[i];
    CountEqPrefix(l, d, i);
    CountLessNext(l, d);
    if d < c {
      CountMonotone(l, d + 1, c);
    } else if c < d {
      CountMonotone(l, c + 1, d);
    }
  }

  /** Main result: reading through the SMALL tables gives the characters that
      reading through the FAST table gives, for any last column and start. */
  lemma {:induction false} SmallReads(t: seq<nat>, l: seq<byte>, cycle: set<nat>, origPtr: nat, k: nat)
    requires OnCycle(l, t, cycle) && origPtr in cycle
    ensures Row(l, origPtr, k) in cycle
    ensures t[Row(l, origPtr, k)] == Row(l, origPtr, k + 1)
    ensures l[Unrank(l, Row(l, origPtr, k))] == WalkChar(l, origPtr, k)
  {
    if k != 0 {
      SmallReads(t, l, cycle, origPtr, k - 1);
    }
  }
}
