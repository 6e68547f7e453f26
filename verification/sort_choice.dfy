/** Two sorts of one block: what any two of them agree on, and exactly when
    they must be the same, so that the compressed stream does not depend on
    which sort was used. */
module SortChoice {
  import opened Words
  import opened Cyclic
  import opened InverseBwt

  lemma BeforeKeeps(b: seq<byte>, p: nat, q: nat, r: nat)
    requires p < |b| && q < |b| && r < |b| && Before(b, p, q) && !Before(b, r, q)
    ensures Before(b, p, r)
  {
    hide Lt, Eq;
    Trichotomy(b, q, r, |b|);
    LtTransitive(b, p, q, r, |b|);
  }

  ghost function Members(s: seq<nat>): (m: set<nat>)
    ensures forall x :: x in m <==> x in s
  {
    set x | x in s
  }

  /** Different entries make as many members. */
  lemma {:induction false} DistinctSize(s: seq<nat>)
    requires Distinct(s)
    ensures |Members(s)| == |s|
  {
    if s != [] {
      DistinctSize(s[1..]);
      assert s[0] !in s[1..];
      assert Members(s) == Members(s[1..]) + {s[0]};
    }
  }

  /** Entries that differ in order would need more room than there is. */
  lemma NotBefore(b: seq<byte>, p: seq<nat>, q: seq<nat>, i: nat)
    requires IsBlockSort(b, p) && IsBlockSort(b, q) && i < |b|
    ensures !Before(b, p[i], q[i])
  {
    hide Before;
    var n := |b|;
    if Before(b, p[i], q[i]) {
      var after, others := Members(p[i + 1..]), Members(q[i..]);
      forall x | x in others ensures x in after {
        assert x in q[i..];
        var j := PlaceIn(q, n, x);
        assert j >= i;
        if j > i {
          BeforeKeeps(b, p[i], q[i], q[j]);
        }
        var k := PlaceIn(p, n, x);
        NotBeforeItself(b, p[i]);
        assert p[i + 1..][k - i - 1] == x;
        assert x in p[i + 1..];
      }
      DistinctSize(p[i + 1..]);
      DistinctSize(q[i..]);
      SubsetSize(others, after);
    }
  }

  lemma NotBeforeItself(b: seq<byte>, p: nat)
    requires p < |b|
    ensures !Before(b, p, p)
  {
    Trichotomy(b, p, p, |b|);
  }

  lemma PlaceIn(p: seq<nat>, n: nat, x: nat) returns (k: nat)
    requires IsPermutation(p, n) && x < n
    ensures k < n && p[k] == x
  {
    PermutationOnto(p, n, x);
    k :| k < n && p[k] == x;
  }

  /** Main result: any two sorts of a block have equal rotations in every
      place, and so the same last column. */
  lemma SameColumn(b: seq<byte>, p: seq<nat>, q: seq<nat>)
    requires IsBlockSort(b, p) && IsBlockSort(b, q)
    ensures forall i :: 0 <= i < |b| ==> Same(b, p[i], q[i])
    ensures LastColumn(b, p) == LastColumn(b, q)
  {
    hide SortedRotations, Same, Before;
    forall i | 0 <= i < |b| ensures Same(b, p[i], q[i]) && LastColumn(b, p)[i] == LastColumn(b, q)[i] {
      NotBefore(b, p, q, i);
      NotBefore(b, q, p, i);
      SameOrOrdered(b, p[i], q[i]);
      SamePrevious(b, p[i], q[i]);
    }
  }

  lemma SameOrOrdered(b: seq<byte>, p: nat, q: nat)
    requires p < |b| && q < |b|
    ensures Same(b, p, q) || Before(b, p, q) || Before(b, q, p)
  {
    Trichotomy(b, p, q, |b|);
  }

  lemma SamePrevious(b: seq<byte>, p: nat, q: nat)
    requires p < |b| && q < |b| && Same(b, p, q)
    ensures Same(b, Prev(|b|, p), Prev(|b|, q)) && b[Prev(|b|, p)] == b[Prev(|b|, q)]
  {
    EqShift(b, Prev(|b|, p), Prev(|b|, q));
  }

  /** No rotation but the block itself equals the block. */
  ghost predicate Primitive(b: seq<byte>) {
    forall x :: 0 < x < |b| ==> !Same(b, 0, x)
  }

  lemma {:induction false} SameFromStart(b: seq<byte>, p: nat, q: nat)
    requires p < |b| && q < |b| && p != q && Same(b, p, q)
    ensures !Primitive(b)
    decreases p
  {
    if p == 0 {
      assert Same(b, 0, q);
    } else if q == 0 {
      SameReversed(b, p, q);
    } else {
      SamePrevious(b, p, q);
      SameFromStart(b, p - 1, q - 1);
    }
  }

  lemma SameReversed(b: seq<byte>, p: nat, q: nat)
    requires p < |b| && q < |b| && Same(b, p, q)
    ensures Same(b, q, p)
  {
    EqEquivalence(b, p, q, p, |b|);
  }

  /** With two equal rotations there is another sort, with the block itself
      elsewhere. */
  lemma OtherSort(b: seq<byte>, p: seq<nat>) returns (q: seq<nat>)
    requires IsBlockSort(b, p) && !Primitive(b)
    ensures IsBlockSort(b, q) && forall i :: 0 <= i < |b| && p[i] == 0 ==> q[i] != 0
  {
    hide Same, Before;
    var n := |b|;
    var x: nat :| 0 < x < n && Same(b, 0, x);
    var i := PlaceIn(p, n, 0);
    var j := PlaceIn(p, n, x);
    q := p[i := x][j := 0];
    forall k, m | 0 <= k < m < n ensures !Before(b, q[m], q[k]) {
      SwapKeepsOrder(b, x, p[k], q[k], p[m], q[m]);
    }
  }

  lemma SwapKeepsOrder(b: seq<byte>, x: nat, u: nat, u': nat, v: nat, v': nat)
    requires x < |b| && u < |b| && v < |b| && Same(b, 0, x) && !Before(b, v, u)
    requires u' == if u == 0 then x else if u == x then 0 else u
    requires v' == if v == 0 then x else if v == x then 0 else v
    ensures !Before(b, v', u')
  {
    hide Lt, Eq;
    var n := |b|;
    SameReversed(b, 0, x);
    LtTransitive(b, v, v', u', n);
    LtTransitive(b, v, u', u, n);
    Trichotomy(b, u, u, n);
    Trichotomy(b, v, v, n);
  }

  /** Main result: the sort of a block, and with it the origin that is sent, is
      determined by being sorted if and only if no other rotation of the block
      equals the block. */
  lemma OneSortExactly(b: seq<byte>, p: seq<nat>)
    requires IsBlockSort(b, p) && |b| > 0
    ensures (forall q :: IsBlockSort(b, q) ==> q == p) <==> Primitive(b)
  {
    if Primitive(b) {
      forall q | IsBlockSort(b, q) ensures q == p {
        SameColumn(b, p, q);
        forall i | 0 <= i < |b| ensures p[i] == q[i] {
          if p[i] != q[i] {
            SameFromStart(b, p[i], q[i]);
          }
        }
      }
    } else {
      var q := OtherSort(b, p);
      var i := PlaceIn(p, |b|, 0);
      assert q[i] != 0;
    }
  }

  /** Whichever sort was used, the decoder reads the block. */
  lemma EitherSortDecodes(b: seq<byte>, p: seq<nat>, q: seq<nat>, origP: nat, origQ: nat, k: nat)
    requires IsBlockSort(b, p) && IsBlockSort(b, q) && k < |b|
    requires origP < |b| && p[origP] == 0 && origQ < |b| && q[origQ] == 0
    ensures WalkChar(LastColumn(b, p), origP, k) == WalkChar(LastColumn(b, p), origQ, k) == b[k]
  {
    hide WalkChar, LastColumn;
    SameColumn(b, p, q);
    InverseTransform(b, p, origP, k);
    InverseTransform(b, q, origQ, k);
  }
}
