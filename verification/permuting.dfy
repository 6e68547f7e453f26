/** Rearranging part of an array, and being sorted by a key. */
module Permuting {
  import opened Words
  import opened Cyclic

  /** b is a with the entries from lo to hi rearranged. */
  ghost predicate Permuted(a: seq<nat>, b: seq<nat>, lo: int, hi: int) {
    && |a| == |b| && multiset(a) == multiset(b)
    && forall x :: 0 <= x < |a| && !(lo <= x <= hi) ==> a[x] == b[x]
  }

  lemma PermutedSame(a: seq<nat>, lo: int, hi: int)
    ensures Permuted(a, a, lo, hi)
  {
  }

  lemma PermutedThen(a: seq<nat>, b: seq<nat>, c: seq<nat>, lo: int, hi: int)
    requires Permuted(a, b, lo, hi) && Permuted(b, c, lo, hi)
    ensures Permuted(a, c, lo, hi)
  {
  }

  lemma PermutedWiden(a: seq<nat>, b: seq<nat>, lo: int, hi: int, lo': int, hi': int)
    requires Permuted(a, b, lo, hi) && lo' <= lo && hi <= hi'
    ensures Permuted(a, b, lo', hi')
  {
  }

  function Swapped(a: seq<nat>, i: int, j: int): (b: seq<nat>)
    requires 0 <= i < |a| && 0 <= j < |a|
    ensures |b| == |a| && b[i] == a[j] && b[j] == a[i]
    ensures forall x :: 0 <= x < |a| && x != i && x != j ==> b[x] == a[x]
  {
    a[i := a[j]][j := a[i]]
  }

  lemma SwapPermutes(a: seq<nat>, i: int, j: int, lo: int, hi: int)
    requires 0 <= lo <= i <= hi < |a| && lo <= j <= hi
    ensures Permuted(a, Swapped(a, i, j), lo, hi)
  {
    assert multiset(a[i := a[j]]) == multiset(a) - multiset{a[i]} + multiset{a[j]};
  }

  lemma SameMiddle(p: seq<nat>, m: seq<nat>, m': seq<nat>, q: seq<nat>)
    requires multiset(p + m + q) == multiset(p + m' + q)
    ensures multiset(m) == multiset(m')
  {
    assert multiset(p + m + q) == multiset(p) + multiset(m) + multiset(q);
    assert multiset(p + m' + q) == multiset(p) + multiset(m') + multiset(q);
    assert multiset(m) == multiset(p + m + q) - multiset(p) - multiset(q);
    assert multiset(m') == multiset(p + m' + q) - multiset(p) - multiset(q);
  }

  /** What stands in the range afterwards stood in it before. */
  lemma ComesFrom(a: seq<nat>, b: seq<nat>, lo: int, hi: int, y: int) returns (x: int)
    requires 0 <= lo <= y <= hi < |a| && Permuted(a, b, lo, hi)
    ensures lo <= x <= hi && a[x] == b[y]
  {
    var p, m, q := a[..lo], a[lo..hi + 1], a[hi + 1..];
    var m' := b[lo..hi + 1];
    assert a == p + m + q;
    assert b[..lo] == p && b[hi + 1..] == q;
    assert b == p + m' + q;
    SameMiddle(p, m, m', q);
    assert m'[y - lo] in multiset(m');
    var k :| 0 <= k < |m| && m[k] == b[y];
    x := lo + k;
  }

  lemma PermutedBack(a: seq<nat>, b: seq<nat>, lo: int, hi: int)
    requires Permuted(a, b, lo, hi)
    ensures Permuted(b, a, lo, hi)
  {
  }

  lemma {:induction false} DistinctCounts(s: seq<nat>, v: nat)
    ensures Distinct(s) ==> multiset(s)[v] <= 1
  {
    if |s| > 0 {
      var t := s[..|s| - 1];
      assert s == t + [s[|s| - 1]];
      DistinctCounts(t, v);
      if Distinct(s) && s[|s| - 1] == v {
        assert v !in t;
      }
    }
  }

  lemma RepeatedCounts(s: seq<nat>, i: nat, j: nat)
    requires i < j < |s| && s[i] == s[j]
    ensures multiset(s)[s[i]] >= 2
  {
    assert s == s[..j] + s[j..];
    assert s[i] in s[..j] && s[i] in s[j..] by {
      assert s[..j][i] == s[i] && s[j..][0] == s[j];
    }
  }

  /** A rearranged permutation is a permutation. */
  lemma StillPermutation(a: seq<nat>, b: seq<nat>, n: nat, lo: int, hi: int)
    requires n <= |a| && 0 <= lo && hi < n && IsPermutation(a[..n], n) && Permuted(a, b, lo, hi)
    ensures IsPermutation(b[..n], n)
  {
    hide Permuted;
    PrefixPermuted(a, b, n, lo, hi);
    var s, t := a[..n], b[..n];
    forall i, j | 0 <= i < j < n ensures t[i] != t[j] {
      DistinctCounts(s, t[i]);
      if t[i] == t[j] {
        RepeatedCounts(t, i, j);
      }
    }
    forall i | 0 <= i < n ensures t[i] < n {
      assert t[i] in multiset(t);
      assert t[i] in s;
    }
  }

  lemma PrefixPermuted(a: seq<nat>, b: seq<nat>, n: nat, lo: int, hi: int)
    requires n <= |a| && hi < n && Permuted(a, b, lo, hi)
    ensures |b| == |a| && multiset(a[..n]) == multiset(b[..n])
  {
    assert a == [] + a[..n] + a[n..];
    assert a[n..] == b[n..];
    assert b == [] + b[..n] + a[n..];
    SameMiddle([], a[..n], b[..n], a[n..]);
  }

  // ---------- sorted by a key ----------

  /** The entries from lo to hi are indices of keys. */
  ghost predicate Keyed(a: seq<nat>, keys: seq<nat>, lo: int, hi: int) {
    0 <= lo <= hi + 1 <= |a| && forall x :: lo <= x <= hi ==> a[x] < |keys|
  }

  ghost predicate SortedBy(a: seq<nat>, keys: seq<nat>, lo: int, hi: int)
    requires Keyed(a, keys, lo, hi)
  {
    forall x, y :: lo <= x < y <= hi ==> keys[a[x]] <= keys[a[y]]
  }

  /** All entries of the range have one key. */
  ghost predicate Level(a: seq<nat>, keys: seq<nat>, lo: int, hi: int, v: nat) {
    Keyed(a, keys, lo, hi) && forall x {:trigger a[x]} :: lo <= x <= hi ==> keys[a[x]] == v
  }

  lemma StillKeyed(a: seq<nat>, b: seq<nat>, keys: seq<nat>, lo: int, hi: int, lo': int, hi': int)
    requires Keyed(a, keys, lo, hi) && lo <= lo' <= hi' + 1 && hi' <= hi && Permuted(a, b, lo', hi')
    ensures Keyed(b, keys, lo, hi)
  {
    forall y | lo <= y <= hi ensures b[y] < |keys| {
      if lo' <= y <= hi' {
        var x := ComesFrom(a, b, lo', hi', y);
      }
    }
  }
}
