/** Cyclic rotations of a block and their order. A rotation is named by the
    position it starts at. Equal rotations (periodic blocks) are allowed. */
module Cyclic {
  import opened Words

  function Next(n: nat, p: nat): (r: nat)
    requires p < n
    ensures r < n
  {
    if p + 1 == n then 0 else p + 1
  }

  function Prev(n: nat, p: nat): (r: nat)
    requires p < n
    ensures r < n && Next(n, r) == p
  {
    if p == 0 then n - 1 else p - 1
  }

  /** The position k steps after p. */
  function Adv(n: nat, p: nat, k: nat): (r: nat)
    requires p < n
    ensures r < n
    decreases k
  {
    if k == 0 then p else Adv(n, Next(n, p), k - 1)
  }

  lemma {:induction false} AdvIs(n: nat, p: nat, k: nat)
    requires p < n && k <= n
    ensures Adv(n, p, k) == if p + k < n then p + k else p + k - n
    decreases k
  {
    if k != 0 {
      AdvIs(n, Next(n, p), k - 1);
    }
  }

  lemma {:induction false} AdvAdd(n: nat, p: nat, j: nat, k: nat)
    requires p < n
    ensures Adv(n, Adv(n, p, j), k) == Adv(n, p, j + k)
    decreases j
  {
    if j != 0 {
      AdvAdd(n, Next(n, p), j - 1, k);
    }
  }

  lemma AdvNext(n: nat, p: nat, k: nat)
    requires p < n
    ensures Next(n, Adv(n, p, k)) == Adv(n, p, k + 1) == Adv(n, Next(n, p), k)
  {
    AdvAdd(n, p, k, 1);
    assert Adv(n, Adv(n, p, k), 1) == Next(n, Adv(n, p, k)) by {
      assert Adv(n, Next(n, Adv(n, p, k)), 0) == Next(n, Adv(n, p, k));
    }
  }

  /** The first k characters from p and from q agree. */
  ghost predicate Eq(b: seq<byte>, p: nat, q: nat, k: nat)
    requires p < |b| && q < |b|
    decreases k
  {
    k == 0 || (b[p] == b[q] && Eq(b, Next(|b|, p), Next(|b|, q), k - 1))
  }

  /** The first k characters from p come before those from q. */
  ghost predicate Lt(b: seq<byte>, p: nat, q: nat, k: nat)
    requires p < |b| && q < |b|
    decreases k
  {
    k > 0 && (b[p] < b[q] || (b[p] == b[q] && Lt(b, Next(|b|, p), Next(|b|, q), k - 1)))
  }

  /** One byte repeated: all rotations are equal. */
  ghost predicate Uniform(b: seq<byte>) {
    forall i {:trigger b[i]} :: 0 <= i < |b| ==> b[i] == b[0]
  }

  lemma {:induction false} UniformEq(b: seq<byte>, p: nat, q: nat, k: nat)
    requires Uniform(b) && p < |b| && q < |b|
    ensures Eq(b, p, q, k)
    decreases k
  {
    if k != 0 {
      UniformEq(b, Next(|b|, p), Next(|b|, q), k - 1);
    }
  }

  /** The order of whole rotations. */
  ghost predicate Before(b: seq<byte>, p: nat, q: nat)
    requires p < |b| && q < |b|
  {
    Lt(b, p, q, |b|)
  }

  ghost predicate Same(b: seq<byte>, p: nat, q: nat)
    requires p < |b| && q < |b|
  {
    Eq(b, p, q, |b|)
  }

  lemma {:induction false} EqEquivalence(b: seq<byte>, p: nat, q: nat, r: nat, k: nat)
    requires p < |b| && q < |b| && r < |b|
    ensures Eq(b, p, p, k)
    ensures Eq(b, p, q, k) == Eq(b, q, p, k)
    ensures Eq(b, p, q, k) && Eq(b, q, r, k) ==> Eq(b, p, r, k)
    decreases k
  {
    if k != 0 {
      EqEquivalence(b, Next(|b|, p), Next(|b|, q), Next(|b|, r), k - 1);
    }
  }

  lemma {:induction false} Trichotomy(b: seq<byte>, p: nat, q: nat, k: nat)
    requires p < |b| && q < |b|
    ensures Lt(b, p, q, k) || Lt(b, q, p, k) || Eq(b, p, q, k)
    ensures !(Lt(b, p, q, k) && Lt(b, q, p, k))
    ensures !(Lt(b, p, q, k) && Eq(b, p, q, k)) && !(Lt(b, q, p, k) && Eq(b, p, q, k))
    decreases k
  {
    if k != 0 {
      Trichotomy(b, Next(|b|, p), Next(|b|, q), k - 1);
    }
  }

  lemma {:induction false} LtTransitive(b: seq<byte>, p: nat, q: nat, r: nat, k: nat)
    requires p < |b| && q < |b| && r < |b|
    ensures Lt(b, p, q, k) && Lt(b, q, r, k) ==> Lt(b, p, r, k)
    ensures Eq(b, p, q, k) && Lt(b, q, r, k) ==> Lt(b, p, r, k)
    ensures Lt(b, p, q, k) && Eq(b, q, r, k) ==> Lt(b, p, r, k)
    decreases k
  {
    if k != 0 {
      LtTransitive(b, Next(|b|, p), Next(|b|, q), Next(|b|, r), k - 1);
    }
  }

  /** Comparing j + k characters is comparing j, then k more. */
  lemma {:induction false} Compose(b: seq<byte>, p: nat, q: nat, j: nat, k: nat)
    requires p < |b| && q < |b|
    ensures var n := |b|;
            && (Eq(b, p, q, j + k) <==> Eq(b, p, q, j) && Eq(b, Adv(n, p, j), Adv(n, q, j), k))
            && (Lt(b, p, q, j + k) <==>
                  Lt(b, p, q, j) || (Eq(b, p, q, j) && Lt(b, Adv(n, p, j), Adv(n, q, j), k)))
    decreases j
  {
    if j != 0 {
      Compose(b, Next(|b|, p), Next(|b|, q), j - 1, k);
    }
  }

  /** The last character of the rotation after p is the one at p. */
  lemma AdvAround(n: nat, p: nat)
    requires p < n
    ensures Adv(n, Next(n, p), n - 1) == p
  {
    AdvIs(n, p, n);
    assert Adv(n, p, n) == Adv(n, Next(n, p), n - 1);
  }

  /** One character of comparison. */
  lemma OneStep(b: seq<byte>, p: nat, q: nat)
    requires p < |b| && q < |b|
    ensures Eq(b, p, q, 1) <==> b[p] == b[q]
    ensures Lt(b, p, q, 1) <==> b[p] < b[q]
  {
    assert Eq(b, Next(|b|, p), Next(|b|, q), 0) && !Lt(b, Next(|b|, p), Next(|b|, q), 0);
  }

  /** The comparison unfolded once. */
  lemma ComposeFirst(b: seq<byte>, p: nat, q: nat, j: nat)
    requires p < |b| && q < |b|
    ensures var p', q' := Next(|b|, p), Next(|b|, q);
            && (Eq(b, p, q, j + 1) <==> b[p] == b[q] && Eq(b, p', q', j))
            && (Lt(b, p, q, j + 1) <==> b[p] < b[q] || (b[p] == b[q] && Lt(b, p', q', j)))
  {
  }

  /** The comparison grows by its last character. */
  lemma ComposeLast(b: seq<byte>, p: nat, q: nat, j: nat)
    requires p < |b| && q < |b|
    ensures var p', q' := Adv(|b|, p, j), Adv(|b|, q, j);
            && (Eq(b, p, q, j + 1) <==> Eq(b, p, q, j) && b[p'] == b[q'])
            && (Lt(b, p, q, j + 1) <==> Lt(b, p, q, j) || (Eq(b, p, q, j) && b[p'] < b[q']))
  {
    Compose(b, p, q, j, 1);
    OneStep(b, Adv(|b|, p, j), Adv(|b|, q, j));
  }

  /** Whole rotations that agree exactly when they agree one step on, and then at any length. */
  lemma EqShift(b: seq<byte>, p: nat, q: nat)
    requires p < |b| && q < |b|
    ensures Same(b, p, q) <==> Same(b, Next(|b|, p), Next(|b|, q))
  {
    hide Eq, Lt, Adv, Next;
    var n := |b|;
    ComposeFirst(b, p, q, n - 1);
    ComposeLast(b, Next(n, p), Next(n, q), n - 1);
    AdvAround(n, p);
    AdvAround(n, q);
  }

  /** Prefixing one character turns the order of two rotations into the
      order by that character first. */
  lemma BeforeByFirst(b: seq<byte>, p: nat, q: nat)
    requires p < |b| && q < |b|
    ensures Before(b, p, q) <==>
            b[p] < b[q] || (b[p] == b[q] && Before(b, Next(|b|, p), Next(|b|, q)))
  {
    hide Eq, Lt, Adv, Next;
    var n := |b|;
    ComposeFirst(b, p, q, n - 1);
    ComposeLast(b, Next(n, p), Next(n, q), n - 1);
    AdvAround(n, p);
    AdvAround(n, q);
  }

  /** Each position below n exactly once. */
  ghost predicate IsPermutation(ptr: seq<nat>, n: nat) {
    |ptr| == n && (forall i :: 0 <= i < n ==> ptr[i] < n) && Distinct(ptr)
  }

  /** Rotations in nondecreasing order. */
  ghost predicate SortedRotations(b: seq<byte>, ptr: seq<nat>)
    requires forall i :: 0 <= i < |ptr| ==> ptr[i] < |b|
  {
    forall i, j :: 0 <= i < j < |ptr| ==> !Before(b, ptr[j], ptr[i])
  }

  /** What a block sort must deliver. */
  ghost predicate IsBlockSort(b: seq<byte>, ptr: seq<nat>) {
    IsPermutation(ptr, |b|) && SortedRotations(b, ptr)
  }

  // ---------- counting ----------

  function Range(lo: nat, hi: nat): (s: set<nat>)
    requires lo <= hi
    ensures forall i :: i in s <==> lo <= i < hi
    ensures |s| == hi - lo
    decreases hi - lo
  {
    if lo == hi then {} else Range(lo, hi - 1) + {hi - 1}
  }

  lemma SubsetSize(a: set<nat>, b: set<nat>)
    requires a <= b
    ensures |a| <= |b|
    ensures |a| == |b| ==> a == b
  {
    assert b == a + (b - a);
    assert |b| == |a| + |b - a|;
  }

  /** The elements of s at the indices in a. */
  ghost function Image(s: seq<nat>, a: set<nat>): set<nat>
    requires forall i :: i in a ==> i < |s|
  {
    set i | i in a :: s[i]
  }

  lemma {:induction false} ImageAtMost(s: seq<nat>, a: set<nat>)
    requires forall i :: i in a ==> i < |s|
    ensures |Image(s, a)| <= |a|
    decreases |a|
  {
    if a == {} {
      assert Image(s, a) == {};
    } else {
      var x :| x in a;
      ImageAtMost(s, a - {x});
      assert Image(s, a) == Image(s, a - {x}) + {s[x]};
    }
  }

  lemma {:induction false} ImageExact(s: seq<nat>, a: set<nat>)
    requires (forall i :: i in a ==> i < |s|) && Distinct(s)
    ensures |Image(s, a)| == |a|
    decreases |a|
  {
    if a == {} {
      assert Image(s, a) == {};
    } else {
      var x :| x in a;
      ImageExact(s, a - {x});
      assert Image(s, a) == Image(s, a - {x}) + {s[x]};
      forall i | i in a - {x} ensures s[i] != s[x] {
        assert s[if i < x then i else x] != s[if i < x then x else i];
      }
    }
  }

  /** A permutation reaches every position. */
  lemma PermutationOnto(ptr: seq<nat>, n: nat, p: nat)
    requires IsPermutation(ptr, n) && p < n
    ensures exists i :: 0 <= i < n && ptr[i] == p
  {
    hide Range, Distinct;
    var all := Range(0, n);
    ImageExact(ptr, all);
    assert |all - {p}| == n - 1;
    if forall i :: 0 <= i < n ==> ptr[i] != p {
      forall x | x in Image(ptr, all) ensures x in all - {p} {
      }
      SubsetSize(Image(ptr, all), all - {p});
    }
  }
}
