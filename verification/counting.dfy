/** Counting entries of a sequence. */
module Counting {
  /** How many entries of l are less than c. */
  function CountLess(l: seq<nat>, c: nat): (r: nat)
    ensures r <= |l|
  {
    if |l| == 0 then 0
    else CountLess(l[..|l| - 1], c) + (if l[|l| - 1] < c then 1 else 0)
  }

  /** How many entries of l equal c. */
  function CountEq(l: seq<nat>, c: nat): (r: nat)
    ensures r <= |l|
  {
    if |l| == 0 then 0
    else CountEq(l[..|l| - 1], c) + (if l[|l| - 1] == c then 1 else 0)
  }

  lemma {:induction false} CountLessNext(l: seq<nat>, c: nat)
    ensures CountLess(l, c + 1) == CountLess(l, c) + CountEq(l, c)
    ensures CountLess(l, 0) == 0
  {
    if |l| != 0 {
      CountLessNext(l[..|l| - 1], c);
    }
  }

  lemma {:induction false} CountLessAll(l: seq<nat>, c: nat)
    requires forall i :: 0 <= i < |l| ==> l[i] < c
    ensures CountLess(l, c) == |l|
  {
    if |l| != 0 {
      CountLessAll(l[..|l| - 1], c);
    }
  }

  lemma {:induction false} CountMonotone(l: seq<nat>, c: nat, d: nat)
    requires c <= d
    ensures CountLess(l, c) <= CountLess(l, d)
  {
    if |l| != 0 {
      CountMonotone(l[..|l| - 1], c, d);
    }
  }

  lemma {:induction false} CountEqPrefix(l: seq<nat>, c: nat, i: nat)
    requires i < |l| && l[i] == c
    ensures CountEq(l[..i], c) < CountEq(l, c)
  {
    var h := l[..|l| - 1];
    if i == |l| - 1 {
      assert l[..i] == h;
    } else {
      CountEqPrefix(h, c, i);
      assert l[..i] == h[..i];
    }
  }

  lemma CountEqPush(l: seq<nat>, i: nat, c: nat)
    requires i < |l|
    ensures CountEq(l[..i + 1], c) == CountEq(l[..i], c) + (if l[i] == c then 1 else 0)
  {
    assert l[..i + 1][..i] == l[..i];
  }
}
