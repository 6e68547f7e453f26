/** What the quadrants tell at the end of the main sort: two positions with the
    same character have different ones, unless the character was the last to be
    sorted or is too frequent for sixteen bits. */
module MainGrades {
  import opened Words
  import opened Counting
  import opened MainBucket
  import opened MainRadix

  /** How many places of a big bucket have quadrants of their own. */
  const GRADES := 65534

  ghost predicate Apart(b: seq<byte>, q: seq<nat>, c: byte) {
    && |b| <= |q|
    && forall p: nat, r: nat {:trigger q[p], q[r]} :: p < |b| && r < |b| && b[p] == b[r] == c && p != r ==> q[p] != q[r]
  }

  ghost predicate Blank(b: seq<byte>, q: seq<nat>, c: byte) {
    |b| <= |q| && forall p: nat {:trigger q[p]} :: p < |b| && b[p] == c ==> q[p] == 0
  }

  /** How full the big bucket of c is. */
  ghost function BigSize(F: seq<nat>, c: byte): int
    requires |F| == PAIRS + 1
  {
    F[(c as nat + 1) * 256] as int - F[c as nat * 256]
  }

  /** The characters that step 3 was made for. */
  ghost predicate Graded(b: seq<byte>, F: seq<nat>, q: seq<nat>, made: seq<bool>) {
    && |F| == PAIRS + 1 && |made| == 256
    && forall c: byte {:trigger made[c]} ::
         if made[c] then BigSize(F, c) <= GRADES ==> Apart(b, q, c) else Blank(b, q, c)
  }

  lemma GradedStart(b: seq<byte>, F: seq<nat>, q: seq<nat>, made: seq<bool>)
    requires |F| == PAIRS + 1 && |made| == 256 && forall c :: 0 <= c < 256 ==> !made[c]
    requires |b| <= |q| && forall p :: 0 <= p < |b| ==> q[p] == 0
    ensures Graded(b, F, q, made)
  {
  }

  /** Step 3 for one character more. */
  lemma GradedStep(b: seq<byte>, F: seq<nat>, q: seq<nat>, made: seq<bool>, ss: byte, q': seq<nat>)
    requires Graded(b, F, q, made) && |b| <= |q'| && |F| == PAIRS + 1 && |made| == 256 && |b| <= |q|
    requires BigSize(F, ss) <= GRADES ==> Apart(b, q', ss)
    requires forall p: nat {:trigger q'[p]} :: p < |b| && b[p] != ss ==> q'[p] == q[p]
    ensures Graded(b, F, q', made[ss := true])
  {
    var made' := made[ss := true];
    forall c: byte ensures if made'[c] then BigSize(F, c) <= GRADES ==> Apart(b, q', c) else Blank(b, q', c) {
      if c != ss {
        assert made'[c] == made[c];
      }
    }
  }

  /** The quadrants when all characters but the last, a most frequent one, are
      done. */
  ghost predicate Told(b: seq<byte>, q: seq<nat>, last: byte) {
    && Blank(b, q, last)
    && (forall c: byte {:trigger CountEq(b, c)} :: CountEq(b, c) <= CountEq(b, last))
    && (forall c: byte {:trigger Apart(b, q, c)} :: c != last && CountEq(b, c) <= GRADES ==> Apart(b, q, c))
  }

  lemma GradedEnd(b: seq<byte>, q: seq<nat>, made: seq<bool>, last: byte)
    requires Graded(b, BucketStarts(b), q, made) && |made| == 256
    requires forall c: byte {:trigger made[c]} :: made[c] <==> c != last
    requires forall c: byte :: BigSize(BucketStarts(b), c) <= BigSize(BucketStarts(b), last)
    ensures Told(b, q, last)
  {
    hide Apart, Blank, BucketStarts, BigSize, CountEq;
    assert !made[last];
    forall c: byte ensures CountEq(b, c) <= CountEq(b, last) {
      BigSizeIs(b, c);
      BigSizeIs(b, last);
    }
    forall c: byte | c != last && CountEq(b, c) <= GRADES ensures Apart(b, q, c) {
      BigSizeIs(b, c);
      assert made[c];
    }
  }

  /** A big bucket holds the positions of its character. */
  lemma BigSizeIs(b: seq<byte>, c: byte)
    ensures BigSize(BucketStarts(b), c) == CountEq(b, c)
  {
    hide CountEq, CountLess, Keys;
    KeysLength(b);
    BelowPairs(b, c, |b|);
    assert Keys(b)[..|b|] == Keys(b) && b[0..] == b;
  }

  /** The last m positions. */
  lemma {:induction false} BelowPairs(b: seq<byte>, c: byte, m: nat)
    requires m <= |b| == |Keys(b)|
    ensures CountLess(Keys(b)[..m], (c as nat + 1) * 256) - CountLess(Keys(b)[..m], c as nat * 256) ==
            CountEq(b[|b| - m..], c)
  {
    hide Keys, Pair;
    if m > 0 {
      BelowPairs(b, c, m - 1);
      var k, tail := Keys(b)[..m], b[|b| - m..];
      assert k[..m - 1] == Keys(b)[..m - 1] && tail[1..] == b[|b| - (m - 1)..];
      KeyOfCharacter(b, c, m - 1);
      CountEqFirst(tail, c);
    }
  }

  lemma KeyOfCharacter(b: seq<byte>, c: byte, m: nat)
    requires m < |b|
    ensures m < |Keys(b)| && (c as nat * 256 <= Keys(b)[m] < (c as nat + 1) * 256 <==> b[|b| - 1 - m] == c)
  {
  }

  lemma {:induction false} CountEqFirst(s: seq<nat>, c: nat)
    requires |s| > 0
    ensures CountEq(s, c) == (if s[0] == c then 1 else 0) + CountEq(s[1..], c)
  {
    if |s| > 1 {
      CountEqFirst(s[..|s| - 1], c);
      assert s[..|s| - 1][1..] == s[1..][..|s| - 2];
    } else {
      assert s[1..] == [];
    }
  }
}
