/** The synthesis of sorted buckets from a sorted one: scanning the rotations
    that start with one character in order gives their predecessors in order.
    A scan starts from the rotations whose second character decides, and
    feeds on the predecessors that it finds itself. */
module MainScan {
  import opened Words
  import opened Cyclic

  // ---------- rotations against a constant character ----------

  /** The first k characters from p come before k times c. */
  ghost predicate Below(b: seq<byte>, p: nat, c: byte, k: nat)
    requires p < |b|
    decreases k
  {
    k > 0 && (b[p] < c || (b[p] == c && Below(b, Next(|b|, p), c, k - 1)))
  }

  /** The first k characters from p come after k times c. */
  ghost predicate Above(b: seq<byte>, p: nat, c: byte, k: nat)
    requires p < |b|
    decreases k
  {
    k > 0 && (b[p] > c || (b[p] == c && Above(b, Next(|b|, p), c, k - 1)))
  }

  /** The first k characters from p are all c. */
  ghost predicate Constant(b: seq<byte>, p: nat, c: byte, k: nat)
    requires p < |b|
    decreases k
  {
    k == 0 || (b[p] == c && Constant(b, Next(|b|, p), c, k - 1))
  }

  /** On which side of the constant rotation p lies; up is below it. */
  ghost predicate Side(b: seq<byte>, p: nat, c: byte, up: bool)
    requires p < |b|
  {
    if up then Below(b, p, c, |b|) else Above(b, p, c, |b|)
  }

  lemma {:induction false} OneSide(b: seq<byte>, p: nat, c: byte, k: nat)
    requires p < |b|
    ensures Below(b, p, c, k) || Above(b, p, c, k) || Constant(b, p, c, k)
    ensures !(Below(b, p, c, k) && Above(b, p, c, k))
    ensures Constant(b, p, c, k) ==> !Below(b, p, c, k) && !Above(b, p, c, k)
    decreases k
  {
    if k > 0 {
      OneSide(b, Next(|b|, p), c, k - 1);
    }
  }

  lemma {:induction false} ConstantAt(b: seq<byte>, p: nat, c: byte, k: nat, j: nat)
    requires p < |b| && Constant(b, p, c, k) && j < k
    ensures b[Adv(|b|, p, j)] == c
    decreases k
  {
    if j > 0 {
      ConstantAt(b, Next(|b|, p), c, k - 1, j - 1);
    }
  }

  /** Unless the block is constant every rotation is on one side. */
  lemma SomeSide(b: seq<byte>, p: nat, q: nat, c: byte)
    requires p < |b| && q < |b| && b[q] != c
    ensures Side(b, p, c, true) || Side(b, p, c, false)
  {
    OneSide(b, p, c, |b|);
    if Constant(b, p, c, |b|) {
      var j := if q >= p then q - p else q + |b| - p;
      AdvIs(|b|, p, j);
      ConstantAt(b, p, c, |b|, j);
    }
  }

  /** What is below the constant rotation comes before what is above it. */
  lemma {:induction false} SidesInOrder(b: seq<byte>, p: nat, q: nat, c: byte, k: nat)
    requires p < |b| && q < |b| && Below(b, p, c, k) && Above(b, q, c, k)
    ensures Lt(b, p, q, k)
    decreases k
  {
    if b[p] == c && b[q] == c {
      SidesInOrder(b, Next(|b|, p), Next(|b|, q), c, k - 1);
    }
  }

  /** One character less at the end, when that one is c. */
  lemma {:induction false} SideShorter(b: seq<byte>, p: nat, c: byte, k: nat)
    requires p < |b| && b[Adv(|b|, p, k)] == c
    ensures Below(b, p, c, k + 1) == Below(b, p, c, k)
    ensures Above(b, p, c, k + 1) == Above(b, p, c, k)
    decreases k
  {
    if k > 0 {
      SideShorter(b, Next(|b|, p), c, k - 1);
    } else {
      assert !Below(b, Next(|b|, p), c, 0) && !Above(b, Next(|b|, p), c, 0);
    }
  }

  /** A rotation that starts with c is on the side of its successor. */
  lemma SideOfNext(b: seq<byte>, p: nat, c: byte, up: bool)
    requires p < |b| && b[p] == c
    ensures Side(b, p, c, up) == Side(b, Next(|b|, p), c, up)
  {
    AdvAround(|b|, p);
    SideShorter(b, Next(|b|, p), c, |b| - 1);
  }

  lemma SideBySecond(b: seq<byte>, p: nat, c: byte, up: bool)
    requires p < |b| && b[p] == c && |b| > 1 && (if up then b[Next(|b|, p)] < c else b[Next(|b|, p)] > c)
    ensures Side(b, p, c, up)
  {
    hide Next;
    SideOfNext(b, p, c, up);
  }

  // ---------- predecessors ----------

  ghost predicate Positions(s: seq<nat>, n: nat) {
    forall x :: 0 <= x < |s| ==> s[x] < n
  }

  /** The predecessors that start with t, in the order of the list. */
  ghost function Preds(b: seq<byte>, s: seq<nat>, t: byte): (r: seq<nat>)
    requires Positions(s, |b|)
    ensures Positions(r, |b|) && |r| <= |s|
  {
    if |s| == 0 then []
    else
      var k := Prev(|b|, s[|s| - 1]);
      Preds(b, s[..|s| - 1], t) + (if b[k] == t then [k] else [])
  }

  /** Every predecessor in the list comes from an entry, the later ones from
      later entries. */
  lemma {:induction false} PredFrom(b: seq<byte>, s: seq<nat>, t: byte, x: nat) returns (y: nat)
    requires Positions(s, |b|) && x < |Preds(b, s, t)|
    ensures y < |s| && s[y] == Next(|b|, Preds(b, s, t)[x]) && b[Preds(b, s, t)[x]] == t
    ensures |Preds(b, s[..y], t)| == x
  {
    var h := s[..|s| - 1];
    if x < |Preds(b, h, t)| {
      y := PredFrom(b, h, t, x);
      assert h[..y] == s[..y];
    } else {
      y := |s| - 1;
    }
  }

  lemma {:induction false} PredIn(b: seq<byte>, s: seq<nat>, t: byte, k: nat)
    requires Positions(s, |b|) && k < |b| && b[k] == t && Next(|b|, k) in s
    ensures k in Preds(b, s, t)
  {
    var h := s[..|s| - 1];
    if s[|s| - 1] == Next(|b|, k) {
      NextPrev(|b|, k);
    } else {
      PredIn(b, h, t, k);
    }
  }

  lemma NextPrev(n: nat, k: nat)
    requires k < n
    ensures Prev(n, Next(n, k)) == k
  {
  }

  lemma {:induction false} PredsPrefix(b: seq<byte>, s: seq<nat>, k: nat, t: byte)
    requires Positions(s, |b|) && k <= |s|
    ensures Preds(b, s[..k], t) <= Preds(b, s, t)
  {
    if k == |s| {
      assert s[..k] == s;
    } else {
      PredsPrefix(b, s[..|s| - 1], k, t);
      assert s[..|s| - 1][..k] == s[..k];
    }
  }

  lemma PredsPush(b: seq<byte>, s: seq<nat>, p: nat, t: byte)
    requires Positions(s, |b|) && p < |b|
    ensures Positions(s + [p], |b|)
    ensures Preds(b, s + [p], t) == Preds(b, s, t) + (if b[Prev(|b|, p)] == t then [Prev(|b|, p)] else [])
  {
    assert (s + [p])[..|s|] == s;
  }

  // ---------- order ----------

  /** By rank, ascending or descending. */
  ghost predicate InOrder(b: seq<byte>, s: seq<nat>, up: bool)
    requires Positions(s, |b|)
  {
    forall x, y :: 0 <= x < y < |s| ==> Leads(b, s[x], s[y], up)
  }

  ghost predicate Leads(b: seq<byte>, p: nat, q: nat, up: bool)
    requires p < |b| && q < |b|
  {
    if up then !Before(b, q, p) else !Before(b, p, q)
  }

  /** Predecessors with the same character are in the order of their
      successors. */
  lemma LeadsBack(b: seq<byte>, k: nat, l: nat, up: bool)
    requires k < |b| && l < |b| && b[k] == b[l] && Leads(b, Next(|b|, k), Next(|b|, l), up)
    ensures Leads(b, k, l, up)
  {
    hide Lt;
    BeforeByFirst(b, k, l);
    BeforeByFirst(b, l, k);
  }

  lemma PredsInOrder(b: seq<byte>, s: seq<nat>, t: byte, up: bool)
    requires Positions(s, |b|) && InOrder(b, s, up) && Distinct(s)
    ensures InOrder(b, Preds(b, s, t), up) && Distinct(Preds(b, s, t))
  {
    hide Leads, Next;
    var r := Preds(b, s, t);
    forall x, y | 0 <= x < y < |r| ensures Leads(b, r[x], r[y], up) && r[x] != r[y] {
      PredsApart(b, s, t, up, x, y);
    }
  }

  lemma FewerPreds(b: seq<byte>, s: seq<nat>, j: nat, i: nat, t: byte)
    requires Positions(s, |b|) && j <= |s| && i <= |s|
    ensures j <= i ==> |Preds(b, s[..j], t)| <= |Preds(b, s[..i], t)|
  {
    if j <= i {
      PredsPrefix(b, s[..i], j, t);
      assert s[..i][..j] == s[..j];
    }
  }

  lemma PredsApart(b: seq<byte>, s: seq<nat>, t: byte, up: bool, x: nat, y: nat)
    requires Positions(s, |b|) && InOrder(b, s, up) && Distinct(s) && x < y < |Preds(b, s, t)|
    ensures Leads(b, Preds(b, s, t)[x], Preds(b, s, t)[y], up) && Preds(b, s, t)[x] != Preds(b, s, t)[y]
  {
    hide Leads, Next;
    var r := Preds(b, s, t);
    var i := PredFrom(b, s, t, x);
    var j := PredFrom(b, s, t, y);
    FewerPreds(b, s, j, i, t);
    assert Leads(b, s[i], s[j], up) && s[i] != s[j];
    LeadsBack(b, r[x], r[y], up);
  }

  // ---------- the scan ----------

  /** All rotations that start with c and are decided by their second
      character, in order. */
  ghost predicate Seeds(b: seq<byte>, c: byte, seeds: seq<nat>, up: bool) {
    && |b| > 1 && Positions(seeds, |b|) && Distinct(seeds) && InOrder(b, seeds, up)
    && (forall p: nat {:trigger p in seeds} :: p in seeds <==> p < |b| && b[p] == c && Decided(b, p, c, up))
  }

  ghost predicate Decided(b: seq<byte>, p: nat, c: byte, up: bool)
    requires p < |b|
  {
    if up then b[Next(|b|, p)] < c else b[Next(|b|, p)] > c
  }

  /** The list that is scanned: the seeds, and what was found from the
      scanned part. */
  ghost function ScanList(b: seq<byte>, c: byte, seeds: seq<nat>, cons: seq<nat>): (r: seq<nat>)
    requires Positions(seeds, |b|) && Positions(cons, |b|)
    ensures Positions(r, |b|)
  {
    seeds + Preds(b, cons, c)
  }

  /** cons is what the scan has passed: each entry was on the list when its
      turn came. */
  ghost predicate Scanned(b: seq<byte>, c: byte, seeds: seq<nat>, cons: seq<nat>)
    requires Positions(seeds, |b|)
  {
    && Positions(cons, |b|)
    && (|cons| == 0
        || (var h := cons[..|cons| - 1];
            Scanned(b, c, seeds, h) && |h| < |ScanList(b, c, seeds, h)| && cons[|h|] == ScanList(b, c, seeds, h)[|h|]))
  }

  lemma ScannedPush(b: seq<byte>, c: byte, seeds: seq<nat>, cons: seq<nat>)
    requires Positions(seeds, |b|) && Scanned(b, c, seeds, cons) && |cons| < |ScanList(b, c, seeds, cons)|
    ensures Scanned(b, c, seeds, cons + [ScanList(b, c, seeds, cons)[|cons|]])
  {
    assert (cons + [ScanList(b, c, seeds, cons)[|cons|]])[..|cons|] == cons;
  }

  /** The scanned part is the beginning of the list. */
  lemma {:induction false} ScannedPrefix(b: seq<byte>, c: byte, seeds: seq<nat>, cons: seq<nat>)
    requires Positions(seeds, |b|) && Scanned(b, c, seeds, cons)
    ensures cons <= ScanList(b, c, seeds, cons)
  {
    if |cons| > 0 {
      var h := cons[..|cons| - 1];
      ScannedPrefix(b, c, seeds, h);
      PredsPrefix(b, cons, |h|, c);
      assert ScanList(b, c, seeds, h) <= ScanList(b, c, seeds, cons);
      assert cons == h + [cons[|h|]];
    }
  }

  /** Everything on the list starts with c, lies on the side of the seeds, and
      is there once and in order. */
  ghost predicate ListOk(b: seq<byte>, c: byte, s: seq<nat>, up: bool)
    requires Positions(s, |b|)
  {
    && Distinct(s) && InOrder(b, s, up)
    && (forall x {:trigger s[x]} :: 0 <= x < |s| ==> b[s[x]] == c && Side(b, s[x], c, up))
  }

  lemma ListPrefix(b: seq<byte>, c: byte, s: seq<nat>, r: seq<nat>, up: bool)
    requires Positions(s, |b|) && ListOk(b, c, s, up) && r <= s
    ensures Positions(r, |b|) && ListOk(b, c, r, up)
  {
    assert forall x :: 0 <= x < |r| ==> r[x] == s[x];
  }

  lemma {:induction false} ScanListOk(b: seq<byte>, c: byte, seeds: seq<nat>, cons: seq<nat>, up: bool)
    requires Seeds(b, c, seeds, up) && Scanned(b, c, seeds, cons)
    ensures Positions(cons, |b|) && ListOk(b, c, ScanList(b, c, seeds, cons), up) && ListOk(b, c, cons, up)
    decreases |cons|
  {
    hide Side, Leads, Next;
    SeedsOk(b, c, seeds, up);
    if |cons| == 0 {
      assert ScanList(b, c, seeds, cons) == seeds;
    } else {
      var h := cons[..|cons| - 1];
      ScanListOk(b, c, seeds, h, up);
      ScannedPrefix(b, c, seeds, h);
      assert cons <= ScanList(b, c, seeds, h) by { assert cons == h + [cons[|h|]]; }
      ListPrefix(b, c, ScanList(b, c, seeds, h), cons, up);
      PredsOk(b, c, cons, up);
      JoinedOk(b, c, seeds, Preds(b, cons, c), cons, up);
    }
  }

  lemma SeedsOk(b: seq<byte>, c: byte, seeds: seq<nat>, up: bool)
    requires Seeds(b, c, seeds, up)
    ensures ListOk(b, c, seeds, up)
  {
    hide Side;
    forall x | 0 <= x < |seeds| ensures b[seeds[x]] == c && Side(b, seeds[x], c, up) {
      assert seeds[x] in seeds;
      SideBySecond(b, seeds[x], c, up);
    }
  }

  lemma PredsOk(b: seq<byte>, c: byte, cons: seq<nat>, up: bool)
    requires Positions(cons, |b|) && ListOk(b, c, cons, up)
    ensures ListOk(b, c, Preds(b, cons, c), up)
  {
    hide Side, Leads, Next;
    PredsInOrder(b, cons, c, up);
    var r := Preds(b, cons, c);
    forall x | 0 <= x < |r| ensures b[r[x]] == c && Side(b, r[x], c, up) {
      var y := PredFrom(b, cons, c, x);
      SideOfNext(b, r[x], c, up);
    }
  }

  /** A seed leads every rotation with two leading c. */
  lemma SeedLeads(b: seq<byte>, c: byte, p: nat, k: nat, up: bool)
    requires p < |b| && k < |b| && b[p] == b[k] == c && Decided(b, p, c, up) && b[Next(|b|, k)] == c
    ensures Leads(b, p, k, up) && p != k
  {
    hide Lt;
    BeforeByFirst(b, p, k);
    BeforeByFirst(b, k, p);
    BeforeByFirst(b, Next(|b|, p), Next(|b|, k));
    BeforeByFirst(b, Next(|b|, k), Next(|b|, p));
  }

  lemma JoinedOk(b: seq<byte>, c: byte, seeds: seq<nat>, r: seq<nat>, cons: seq<nat>, up: bool)
    requires Seeds(b, c, seeds, up) && Positions(cons, |b|) && ListOk(b, c, cons, up) && r == Preds(b, cons, c)
    requires ListOk(b, c, seeds, up) && ListOk(b, c, r, up)
    ensures ListOk(b, c, seeds + r, up)
  {
    hide Side, Leads, Next, Decided;
    var s := seeds + r;
    forall x, y | 0 <= x < y < |s| ensures Leads(b, s[x], s[y], up) && s[x] != s[y] {
      if y < |seeds| {
        assert Leads(b, seeds[x], seeds[y], up);
      } else if x >= |seeds| {
        assert Leads(b, r[x - |seeds|], r[y - |seeds|], up);
      } else {
        assert seeds[x] in seeds;
        var z := PredFrom(b, cons, c, y - |seeds|);
        SeedLeads(b, c, s[x], s[y], up);
      }
    }
    forall x | 0 <= x < |s| ensures b[s[x]] == c && Side(b, s[x], c, up) {
      assert s[x] == if x < |seeds| then seeds[x] else r[x - |seeds|];
    }
  }

  // ---------- the scan finds everything ----------

  /** When the scan has passed its whole list, it has passed every rotation
      that starts with c and lies on its side. */
  lemma {:induction false} ScanComplete(b: seq<byte>, c: byte, seeds: seq<nat>, cons: seq<nat>, up: bool, p: nat,
      k: nat)
    requires Seeds(b, c, seeds, up) && Scanned(b, c, seeds, cons) && |cons| == |ScanList(b, c, seeds, cons)|
    requires p < |b| && b[p] == c && (if up then Below(b, Next(|b|, p), c, k) else Above(b, Next(|b|, p), c, k))
    ensures p in cons
    decreases k
  {
    ScannedPrefix(b, c, seeds, cons);
    assert cons == ScanList(b, c, seeds, cons);
    if Decided(b, p, c, up) {
      assert p in seeds;
    } else {
      ScanComplete(b, c, seeds, cons, up, Next(|b|, p), k - 1);
      PredIn(b, cons, c, p);
    }
  }

  lemma ScanFinds(b: seq<byte>, c: byte, seeds: seq<nat>, cons: seq<nat>, up: bool, p: nat)
    requires Seeds(b, c, seeds, up) && Scanned(b, c, seeds, cons) && |cons| == |ScanList(b, c, seeds, cons)|
    requires p < |b| && b[p] == c && Side(b, p, c, up)
    ensures p in cons
  {
    hide Next;
    SideOfNext(b, p, c, up);
    ScanComplete(b, c, seeds, cons, up, p, |b|);
  }

  // ---------- one bucket ----------

  /** The rotations that start with t and c. */
  ghost predicate Member(b: seq<byte>, t: byte, c: byte, k: nat) {
    k < |b| && b[k] == t && b[Next(|b|, k)] == c
  }

  ghost function Elements(r: seq<nat>): set<nat> {
    set x | x in r
  }

  lemma {:induction false} DistinctFits(s: seq<nat>, r: seq<nat>)
    requires Distinct(s) && forall x :: 0 <= x < |s| ==> s[x] in r
    ensures |s| <= |r|
  {
    ElementsFew(r);
    var own := Image(s, Range(0, |s|));
    ImageExact(s, Range(0, |s|));
    forall v | v in own ensures v in Elements(r) {
    }
    SubsetSize(own, Elements(r));
  }

  lemma {:induction false} ElementsFew(r: seq<nat>)
    ensures |Elements(r)| <= |r|
  {
    if |r| == 0 {
      assert Elements(r) == {};
    } else {
      var h := r[..|r| - 1];
      ElementsFew(h);
      assert r == h + [r[|r| - 1]];
      assert Elements(r) == Elements(h) + {r[|r| - 1]};
    }
  }

  /** What a scan finds for the bucket are members of it, on its side. */
  lemma FoundMembers(b: seq<byte>, t: byte, c: byte, cons: seq<nat>, up: bool)
    requires Positions(cons, |b|) && ListOk(b, c, cons, up)
    ensures Distinct(Preds(b, cons, t)) && InOrder(b, Preds(b, cons, t), up)
    ensures forall x {:trigger Preds(b, cons, t)[x]} :: 0 <= x < |Preds(b, cons, t)| ==>
              Member(b, t, c, Preds(b, cons, t)[x]) && Side(b, Next(|b|, Preds(b, cons, t)[x]), c, up)
  {
    hide Side, Leads, Next;
    PredsInOrder(b, cons, t, up);
    var r := Preds(b, cons, t);
    forall x | 0 <= x < |r| ensures Member(b, t, c, r[x]) && Side(b, Next(|b|, r[x]), c, up) {
      var y := PredFrom(b, cons, t, x);
    }
  }

  /** What both scans find together has room in the bucket. */
  lemma FoundFits(b: seq<byte>, t: byte, c: byte, low: seq<nat>, high: seq<nat>, bucket: seq<nat>)
    requires Positions(low, |b|) && ListOk(b, c, low, true) && Positions(high, |b|) && ListOk(b, c, high, false)
    requires forall k: nat {:trigger k in bucket} :: k in bucket <==> Member(b, t, c, k)
    ensures |Preds(b, low, t)| + |Preds(b, high, t)| <= |bucket|
    ensures Distinct(Preds(b, low, t) + Preds(b, high, t))
  {
    hide Side, Leads, Next, Member;
    FoundMembers(b, t, c, low, true);
    FoundMembers(b, t, c, high, false);
    var l, h := Preds(b, low, t), Preds(b, high, t);
    var s := l + h;
    forall x, y | 0 <= x < y < |s| ensures s[x] != s[y] {
      if x < |l| && y >= |l| {
        SidesApart(b, c, l[x], h[y - |l|]);
      }
    }
    forall x | 0 <= x < |s| ensures s[x] in bucket {
      assert s[x] == if x < |l| then l[x] else h[x - |l|];
    }
    DistinctFits(s, bucket);
  }

  lemma SidesApart(b: seq<byte>, c: byte, k: nat, l: nat)
    requires k < |b| && l < |b| && Side(b, Next(|b|, k), c, true) && Side(b, Next(|b|, l), c, false)
    ensures k != l
  {
    hide Next;
    OneSide(b, Next(|b|, k), c, |b|);
  }

  /** When both scans are through they have filled the bucket: the low finds
      in order, then the high finds in reverse. */
  lemma FoundFills(b: seq<byte>, t: byte, c: byte, seedsL: seq<nat>, low: seq<nat>, seedsH: seq<nat>, high: seq<nat>,
      bucket: seq<nat>, q: nat)
    requires Seeds(b, c, seedsL, true) && Scanned(b, c, seedsL, low) && |low| == |ScanList(b, c, seedsL, low)|
    requires Seeds(b, c, seedsH, false) && Scanned(b, c, seedsH, high) && |high| == |ScanList(b, c, seedsH, high)|
    requires Distinct(bucket) && (forall k: nat {:trigger k in bucket} :: k in bucket <==> Member(b, t, c, k))
    requires Positions(low, |b|) && Positions(high, |b|) && q < |b| && b[q] != c
    ensures |Preds(b, low, t)| + |Preds(b, high, t)| == |bucket|
  {
    hide Side, Leads, Next, Scanned, Seeds, Member;
    ScanListOk(b, c, seedsL, low, true);
    ScanListOk(b, c, seedsH, high, false);
    FoundFits(b, t, c, low, high, bucket);
    var s := Preds(b, low, t) + Preds(b, high, t);
    forall x | 0 <= x < |bucket| ensures bucket[x] in s {
      assert bucket[x] in bucket;
      MemberFound(b, t, c, seedsL, low, seedsH, high, q, bucket[x]);
    }
    DistinctFits(bucket, s);
  }

  lemma MemberFound(b: seq<byte>, t: byte, c: byte, seedsL: seq<nat>, low: seq<nat>, seedsH: seq<nat>, high: seq<nat>,
      q: nat, k: nat)
    requires Seeds(b, c, seedsL, true) && Scanned(b, c, seedsL, low) && |low| == |ScanList(b, c, seedsL, low)|
    requires Seeds(b, c, seedsH, false) && Scanned(b, c, seedsH, high) && |high| == |ScanList(b, c, seedsH, high)|
    requires Positions(low, |b|) && Positions(high, |b|) && q < |b| && b[q] != c && Member(b, t, c, k)
    ensures k in Preds(b, low, t) || k in Preds(b, high, t)
  {
    hide Side, Next, Scanned, Seeds, Preds;
    ScanListOk(b, c, seedsL, low, true);
    ScanListOk(b, c, seedsH, high, false);
    hide ListOk, ScanList;
    SomeSide(b, Next(|b|, k), q, c);
    if Side(b, Next(|b|, k), c, true) {
      ScanFinds(b, c, seedsL, low, true, Next(|b|, k));
      PredIn(b, low, t, k);
    } else {
      ScanFinds(b, c, seedsH, high, false, Next(|b|, k));
      PredIn(b, high, t, k);
    }
  }

  /** A low find comes before a high find. */
  lemma FoundInOrder(b: seq<byte>, t: byte, c: byte, k: nat, l: nat)
    requires k < |b| && l < |b| && b[k] == b[l] == t
    requires Side(b, Next(|b|, k), c, true) && Side(b, Next(|b|, l), c, false)
    ensures !Before(b, l, k)
  {
    hide Lt, Next;
    SidesInOrder(b, Next(|b|, k), Next(|b|, l), c, |b|);
    BeforeByFirst(b, l, k);
    Trichotomy(b, Next(|b|, k), Next(|b|, l), |b|);
  }

  /** In a constant block all rotations are equal. */
  lemma {:induction false} ConstantEqual(b: seq<byte>, p: nat, q: nat, k: nat)
    requires p < |b| && q < |b| && forall x, y :: 0 <= x < |b| && 0 <= y < |b| ==> b[x] == b[y]
    ensures !Lt(b, p, q, k)
    decreases k
  {
    if k > 0 {
      ConstantEqual(b, Next(|b|, p), Next(|b|, q), k - 1);
    }
  }
}
