/** The move of all blocks of an array into one contiguous place: every slot,
    chain link and target inside them arrives there, and every pointer to one
    of them follows. */
module SoapSave {
  import opened SoapGraph
  import opened SoapCopies
  import opened SoapRefs
  import opened SoapUpdate
  import opened SoapCopying
  import opened SoapBlocks

  // ---------- where an address goes ----------

  /** The new home of an address when the blocks are laid out at to. */
  function Home(a: nat, blks: seq<Blk>, to: nat): nat {
    if |blks| == 0 then a
    else
      var rest, b := blks[..|blks| - 1], blks[|blks| - 1];
      Moved(Home(a, rest, to), b.h + HEADER, b.n, to + Total(rest))
  }

  lemma {:induction false} HomeWhere(a: nat, blks: seq<Blk>, to: nat)
    ensures Home(a, blks, to) == a || Within(Home(a, blks, to), to, Total(blks))
  {
    if |blks| > 0 {
      HomeWhere(a, blks[..|blks| - 1], to);
    }
  }

  lemma TotalStep(blks: seq<Blk>, k: nat)
    requires k < |blks|
    ensures Total(blks[..k + 1]) == Total(blks[..k]) + blks[k].n
  {
    assert blks[..k + 1][..k] == blks[..k];
  }

  lemma HomeNone(a: nat, blks: seq<Blk>, to: nat)
    ensures Home(a, blks[..0], to) == a
  {
  }

  lemma HomeStep(a: nat, blks: seq<Blk>, k: nat, to: nat)
    requires k < |blks|
    ensures Home(a, blks[..k + 1], to) ==
        Moved(Home(a, blks[..k], to), blks[k].h + HEADER, blks[k].n, to + Total(blks[..k]))
  {
    assert blks[..k + 1][..k] == blks[..k];
  }

  lemma {:induction false} TotalPrefix(blks: seq<Blk>, k: nat)
    requires k <= |blks|
    ensures Total(blks[..k]) <= Total(blks)
    decreases |blks| - k
  {
    if k < |blks| {
      TotalStep(blks, k);
      TotalPrefix(blks, k + 1);
    } else {
      assert blks[..k] == blks;
    }
  }

  /** The part of the place behind the first k blocks. */
  predicate InRest(x: nat, blks: seq<Blk>, k: nat, to: nat)
    requires k <= |blks|
  {
    to + Total(blks[..k]) <= x < to + Total(blks)
  }

  /** Nothing moves into the part of the place that is still to be filled. */
  lemma HomeOutside(a: nat, blks: seq<Blk>, k: nat, to: nat)
    requires k <= |blks| && !Within(a, to, Total(blks))
    ensures !InRest(Home(a, blks[..k], to), blks, k, to)
  {
    TotalPrefix(blks, k);
    HomeWhere(a, blks[..k], to);
  }

  lemma MovedInjective(a: nat, c: nat, start: nat, n: nat, to: nat)
    requires a != c && !Within(a, to, n) && !Within(c, to, n)
    ensures Moved(a, start, n, to) != Moved(c, start, n, to)
  {
  }

  lemma {:induction false} HomeInjective(a: nat, c: nat, blks: seq<Blk>, k: nat, to: nat)
    requires k <= |blks| && a != c && !Within(a, to, Total(blks)) && !Within(c, to, Total(blks))
    ensures Home(a, blks[..k], to) != Home(c, blks[..k], to)
    decreases k
  {
    hide Home, Total, Moved;
    HomeNone(a, blks, to);
    HomeNone(c, blks, to);
    if k > 0 {
      HomeInjective(a, c, blks, k - 1, to);
      TotalStep(blks, k - 1);
      HomeStep(a, blks, k - 1, to);
      HomeStep(c, blks, k - 1, to);
      TotalPrefix(blks, k);
      HomeOutside(a, blks, k - 1, to);
      HomeOutside(c, blks, k - 1, to);
      MovedInjective(Home(a, blks[..k - 1], to), Home(c, blks[..k - 1], to), blks[k - 1].h + HEADER, blks[k - 1].n,
          to + Total(blks[..k - 1]));
    }
  }

  /** The words of block j. */
  predicate InBlock(a: nat, blks: seq<Blk>, j: nat)
    requires j < |blks|
  {
    Within(a, blks[j].h + HEADER, blks[j].n)
  }

  /** No block lies in the place that they are laid out at. */
  ghost predicate PlaceApart(blks: seq<Blk>, to: nat) {
    forall j: nat :: j < |blks| ==> Disjoint(to, Total(blks), blks[j].h, blks[j].n + HEADER)
  }

  /** An address inside a block goes to its place among the blocks laid end to
      end. */
  lemma {:induction false} HomeInside(a: nat, blks: seq<Blk>, k: nat, to: nat, j: nat)
    requires k <= |blks| && j < |blks| && AllSeparate(blks) && PlaceApart(blks, to) && InBlock(a, blks, j)
    ensures Home(a, blks[..k], to) == if j < k then to + Total(blks[..j]) + (a - (blks[j].h + HEADER)) else a
    decreases k
  {
    hide Home, Total;
    HomeNone(a, blks, to);
    if k > 0 {
      HomeInside(a, blks, k - 1, to, j);
      HomeStep(a, blks, k - 1, to);
      if j < k - 1 {
        TotalStep(blks, j);
        TotalPrefix(blks, j + 1);
        assert Within(Home(a, blks[..k - 1], to), to, Total(blks));
        assert !Within(Home(a, blks[..k - 1], to), blks[k - 1].h, blks[k - 1].n + HEADER);
      } else if j >= k {
        assert Separate(blks[k - 1], blks[j]);
        assert Within(a, blks[j].h, blks[j].n + HEADER);
        assert !Within(a, blks[k - 1].h, blks[k - 1].n + HEADER);
      }
    }
  }

  /** Every other address stays. */
  lemma {:induction false} HomeElsewhere(a: nat, blks: seq<Blk>, k: nat, to: nat)
    requires k <= |blks| && forall j: nat :: j < k ==> !InBlock(a, blks, j)
    ensures Home(a, blks[..k], to) == a
    decreases k
  {
    hide Home, Total;
    HomeNone(a, blks, to);
    if k > 0 {
      HomeElsewhere(a, blks, k - 1, to);
      HomeStep(a, blks, k - 1, to);
      assert !InBlock(a, blks, k - 1);
    }
  }

  function HomeTokens(tokens: seq<Token>, blks: seq<Blk>, to: nat): (r: seq<Token>)
    ensures |r| == |tokens|
  {
    seq(|tokens|, t requires 0 <= t < |tokens| => tokens[t].(at := Home(tokens[t].at, blks, to)))
  }

  /** The entries know their objects at the new homes. */
  ghost predicate HomeIds(ids0: map<string, Ilist>, ids: map<string, Ilist>, blks: seq<Blk>, to: nat) {
    && ids.Keys == ids0.Keys
    && (forall id {:trigger ids[id]} :: id in ids0 ==>
          ids[id].ptr == Home(ids0[id].ptr, blks, to) && ids[id].size == ids0[id].size && ids[id].ty == ids0[id].ty)
  }

  // ---------- one block ----------

  /** After the update and the copy every token has arrived. */
  lemma ArrivedAll(g: Graph, mem1: map<nat, nat>, ids1: map<string, Ilist>, mem2: map<nat, nat>, start: nat, n: nat,
      to: nat)
    requires Sound(g) && Updating(g, mem1, ids1, g.ids.Keys, start, n, to) && Pasted(mem1, mem2, start, n, to)
    requires 0 < start && forall t: nat {:trigger g.tokens[t]} :: t < |g.tokens| ==> !Within(g.tokens[t].at, to, n)
    ensures Sound(Graph(mem2, ids1, g.pend, MovedTokens(g.tokens, start, n, to)))
  {
    var h := Graph(mem2, ids1, g.pend, MovedTokens(g.tokens, start, n, to));
    forall t: nat | t < |g.tokens| ensures Arrived(g, h, t, start, n, to) {
      ArrivedOne(g, mem1, ids1, mem2, start, n, to, t);
    }
    SoundKeys(g);
    RelocateSound(g, h, start, n, to);
  }

  lemma ArrivedOne(g: Graph, mem1: map<nat, nat>, ids1: map<string, Ilist>, mem2: map<nat, nat>, start: nat, n: nat,
      to: nat, t: nat)
    requires Sound(g) && Updating(g, mem1, ids1, g.ids.Keys, start, n, to) && Pasted(mem1, mem2, start, n, to)
    requires t < |g.tokens| && !Within(g.tokens[t].at, to, n)
    ensures Arrived(g, Graph(mem2, ids1, g.pend, MovedTokens(g.tokens, start, n, to)), t, start, n, to)
  {
    var a := g.tokens[t].at;
    assert TokenOk(g, t);
    assert mem2[Moved(a, start, n, to)] == mem1[a] by {
      if Within(a, start, n) {
        assert SameWord(mem1, start, mem2, to, a - start);
      }
    }
    if LinkToken(g, t) {
      assert ChainWord(g, a, g.ids.Keys);
    } else {
      forall u: nat | u < |g.tokens| && LinkToken(g, u) ensures g.tokens[u].at != a {
        assert t < u || u < t;
      }
    }
  }

  /** What a block's move leaves elsewhere, and what it carries along. */
  ghost predicate BlockMoved(g: Graph, mem: map<nat, nat>, start: nat, n: nat, to: nat) {
    && mem.Keys == g.mem.Keys
    && (forall a: nat {:trigger Unregistered(g, a)} ::
       a in g.mem && Unregistered(g, a) && !Within(a, to, n) ==> mem[a] == g.mem[a])
    && (forall a: nat {:trigger Unregistered(g, a)} :: Within(a, start, n) && a in g.mem && Unregistered(g, a)
          ==> a - start + to in mem && mem[a - start + to] == g.mem[a])
  }

  lemma BlockMovedBy(g: Graph, mem1: map<nat, nat>, ids1: map<string, Ilist>, mem2: map<nat, nat>, start: nat, n: nat,
      to: nat)
    requires Updating(g, mem1, ids1, g.ids.Keys, start, n, to) && Pasted(mem1, mem2, start, n, to)
    ensures BlockMoved(g, mem2, start, n, to)
  {
    forall a: nat | a in g.mem && Unregistered(g, a) ensures mem1[a] == g.mem[a] {
      assert !ChainWord(g, a, g.ids.Keys);
    }
    forall a: nat | Within(a, start, n) && a in g.mem && Unregistered(g, a)
      ensures a - start + to in mem2 && mem2[a - start + to] == g.mem[a] {
      assert SameWord(mem1, start, mem2, to, a - start);
    }
  }

  /** One step of the loop: pointers first, then the words. */
  method MoveBlock(soap: Soap, q: nat, n: nat, s: nat)
    requires soap.Valid() && 0 < q && 0 < s
    requires forall x: nat :: Within(x, s, n) ==> x in soap.mem
    requires forall x: nat :: Within(x, q, n) ==> x in soap.mem && !Within(x, s, n)
    requires forall t: nat {:trigger soap.tokens[t]} :: t < |soap.tokens| ==> !Within(soap.tokens[t].at, s, n)
    modifies soap`mem, soap`iht, soap`ids, soap`tokens
    ensures soap.Valid() && soap.tokens == MovedTokens(old(soap.tokens), q, n, s)
    ensures soap.ids.Keys == old(soap.ids).Keys
    ensures forall id :: id in old(soap.ids) ==> soap.ids[id] == MovedEntry(old(soap.ids)[id], q, n, s)
    ensures BlockMoved(old(soap.G()), soap.mem, q, n, s)
  {
    hide TableOk, Sound, BlockMoved, Pasted, MovedEntry;
    ghost var g := soap.G();
    UpdatePtrs(soap, q, q + n, s);
    ghost var mem1 := soap.mem;
    Memcpy(soap, s, q, n);
    ArrivedAll(g, mem1, soap.ids, soap.mem, q, n, s);
    BlockMovedBy(g, mem1, soap.ids, soap.mem, q, n, s);
    soap.tokens := MovedTokens(soap.tokens, q, n, s);
    assert soap.G() == Graph(soap.mem, soap.ids, g.pend, soap.tokens);
  }

  // ---------- all blocks ----------

  /** The place is free for the blocks: no block and no reference is in it,
      and no reference is inside a header. */
  ghost predicate PlaceOk(g0: Graph, blks: seq<Blk>, to: nat) {
    && to != 0
    && AllSeparate(blks)
    && PlaceApart(blks, to)
    && NoHeader(g0.tokens, blks)
    && (forall t: nat {:trigger g0.tokens[t]} :: t < |g0.tokens| ==> !Within(g0.tokens[t].at, to, Total(blks)))
  }

  ghost predicate InHeader(a: nat, blks: seq<Blk>) {
    exists j: nat :: j < |blks| && Within(a, blks[j].h, HEADER)
  }

  /** A word that is neither registered nor part of the bookkeeping. */
  ghost predicate Plain(g0: Graph, blks: seq<Blk>, to: nat, a: nat) {
    a in g0.mem && Unregistered(g0, a) && !Within(a, to, Total(blks)) && !InHeader(a, blks)
  }

  /** Every plain word of the beginning is at its home. */
  ghost predicate Carried(g0: Graph, mem: map<nat, nat>, blks: seq<Blk>, k: nat, to: nat)
    requires k <= |blks|
  {
    forall a: nat {:trigger Plain(g0, blks, to, a)} :: Plain(g0, blks, to, a) ==>
      Home(a, blks[..k], to) in mem && mem[Home(a, blks[..k], to)] == g0.mem[a]
  }

  ghost predicate HasPlace(mem: map<nat, nat>, to: nat, n: nat) {
    forall x: nat :: Within(x, to, n) ==> x in mem
  }

  /** The first k blocks were moved and freed. */
  ghost predicate Saving(g0: Graph, g: Graph, ptr: nat, blks: seq<Blk>, k: nat, to: nat) {
    && Queued(g.mem, ptr, blks, k) && BlocksFrom(g.mem, blks, k)
    && g.tokens == HomeTokens(g0.tokens, blks[..k], to)
    && HomeIds(g0.ids, g.ids, blks[..k], to)
    && HasPlace(g.mem, to, Total(blks))
    && Carried(g0, g.mem, blks, k, to)
  }

  lemma StartSaving(g0: Graph, g: Graph, ptr: nat, blks: seq<Blk>, to: nat)
    requires Queued(g.mem, ptr, blks, 0) && Blocks(g.mem, blks) && HeadersOnly(g0.mem, g.mem, blks)
    requires g == g0.(mem := g.mem) && HasPlace(g0.mem, to, Total(blks))
    ensures Saving(g0, g, ptr, blks, 0, to)
  {
    assert blks[..0] == [];
    assert g.tokens == HomeTokens(g0.tokens, [], to);
    forall a: nat | Plain(g0, blks, to, a) ensures a in g.mem && g.mem[a] == g0.mem[a] {
      forall j: nat | j < |blks| ensures blks[j].h != a {
        assert !InHeader(a, blks);
        assert Within(blks[j].h, blks[j].h, HEADER);
      }
    }
  }

  /** Where a token is in between: not in the rest of the place, not in a
      header, and after its own block's move not in that block. */
  lemma TokenPlace(g0: Graph, blks: seq<Blk>, k: nat, to: nat, t: nat)
    requires PlaceOk(g0, blks, to) && k <= |blks| && t < |g0.tokens|
    ensures !InRest(Home(g0.tokens[t].at, blks[..k], to), blks, k, to)
    ensures !InHeader(Home(g0.tokens[t].at, blks[..k], to), blks)
    ensures forall j: nat :: j < k ==> !Within(Home(g0.tokens[t].at, blks[..k], to), blks[j].h, blks[j].n + HEADER)
  {
    var a := g0.tokens[t].at;
    HomeOutside(a, blks, k, to);
    HomeOffHeader(g0.tokens, blks, k, to, t);
    forall j: nat | j < k ensures !Within(Home(a, blks[..k], to), blks[j].h, blks[j].n + HEADER) {
      HomeOffBlock(a, blks, k, to, j);
    }
  }

  lemma HomeOffHeader(tokens: seq<Token>, blks: seq<Blk>, k: nat, to: nat, t: nat)
    requires PlaceApart(blks, to) && NoHeader(tokens, blks) && k <= |blks| && t < |tokens|
    ensures !InHeader(Home(tokens[t].at, blks[..k], to), blks)
    ensures !InHeader(tokens[t].at, blks)
  {
    var a := tokens[t].at;
    HomeWhere(a, blks[..k], to);
    TotalPrefix(blks, k);
    hide Home, Total;
    forall j: nat | j < |blks|
      ensures !Within(Home(a, blks[..k], to), blks[j].h, HEADER) && !Within(a, blks[j].h, HEADER)
    {
      assert !Within(a, blks[j].h, HEADER);
      PlaceOff(Home(a, blks[..k], to), blks, to, j);
    }
  }

  /** Nothing in the place is in a block. */
  lemma PlaceOff(x: nat, blks: seq<Blk>, to: nat, j: nat)
    requires PlaceApart(blks, to) && j < |blks|
    ensures Within(x, to, Total(blks)) ==> !Within(x, blks[j].h, blks[j].n + HEADER)
    ensures Within(x, to, Total(blks)) ==> !Within(x, blks[j].h, HEADER)
  {
    assert Disjoint(to, Total(blks), blks[j].h, blks[j].n + HEADER);
    assert Within(x, blks[j].h, HEADER) ==> Within(x, blks[j].h, blks[j].n + HEADER);
  }

  /** Once a block was moved, a word outside the headers has no home in it. */
  lemma HomeOffBlock(a: nat, blks: seq<Blk>, k: nat, to: nat, j: nat)
    requires AllSeparate(blks) && PlaceApart(blks, to) && j < k <= |blks| && !Within(a, blks[j].h, HEADER)
    ensures !Within(Home(a, blks[..k], to), blks[j].h, blks[j].n + HEADER)
  {
    HomeWhere(a, blks[..k], to);
    TotalPrefix(blks, k);
    PlaceOff(Home(a, blks[..k], to), blks, to, j);
    if InBlock(a, blks, j) {
      HomeInside(a, blks, k, to, j);
      TotalStep(blks, j);
      TotalPrefix(blks, j + 1);
    }
  }

  /** The move of block k may go ahead. */
  lemma MoveReady(g0: Graph, g: Graph, ptr: nat, blks: seq<Blk>, k: nat, to: nat)
    requires PlaceOk(g0, blks, to) && Saving(g0, g, ptr, blks, k, to) && k < |blks|
    ensures ptr == blks[k].h && ptr + 1 in g.mem && g.mem[ptr + 1] == blks[k].n
    ensures var s, q, n := to + Total(blks[..k]), blks[k].h + HEADER, blks[k].n;
            && (forall x: nat :: Within(x, s, n) ==> x in g.mem)
            && (forall x: nat :: Within(x, q, n) ==> x in g.mem && !Within(x, s, n))
            && (forall t: nat {:trigger g.tokens[t]} :: t < |g.tokens| ==> !Within(g.tokens[t].at, s, n))
  {
    var s, q, n := to + Total(blks[..k]), blks[k].h + HEADER, blks[k].n;
    TotalStep(blks, k);
    TotalPrefix(blks, k + 1);
    hide Home, Total;
    assert BlockAt(g.mem, blks[k]);
    assert forall x: nat :: Within(x, s, n) ==> Within(x, to, Total(blks));
    forall x: nat | Within(x, q, n) ensures x in g.mem && !Within(x, s, n) {
      assert Within(x, blks[k].h, blks[k].n + HEADER);
      PlaceOff(x, blks, to, k);
    }
    forall t: nat | t < |g.tokens| ensures !Within(g.tokens[t].at, s, n) {
      TokenPlace(g0, blks, k, to, t);
    }
  }

  /** After the move the queue is as it was, and nothing registered is left
      in block k. */
  lemma MovedQueue(g0: Graph, g: Graph, mem: map<nat, nat>, ptr: nat, blks: seq<Blk>, k: nat, to: nat)
    requires PlaceOk(g0, blks, to) && Saving(g0, g, ptr, blks, k, to) && k < |blks|
    requires BlockMoved(g, mem, blks[k].h + HEADER, blks[k].n, to + Total(blks[..k]))
    ensures Queued(mem, ptr, blks, k) && BlocksFrom(mem, blks, k)
  {
    TotalStep(blks, k);
    TotalPrefix(blks, k + 1);
    hide Home, Total;
    forall j: nat | k <= j < |blks| ensures BlockAt(mem, blks[j]) && NewerAt(mem, blks, j) {
      assert BlockAt(g.mem, blks[j]) && NewerAt(g.mem, blks, j);
      HeaderKept(g0, g, mem, blks, k, to, j, blks[j].h);
      HeaderKept(g0, g, mem, blks, k, to, j, blks[j].h + 1);
    }
  }

  lemma HeaderKept(g0: Graph, g: Graph, mem: map<nat, nat>, blks: seq<Blk>, k: nat, to: nat, j: nat, a: nat)
    requires PlaceOk(g0, blks, to) && k < |blks| && j < |blks| && Within(a, blks[j].h, HEADER) && a in g.mem
    requires g.tokens == HomeTokens(g0.tokens, blks[..k], to)
    requires to + Total(blks[..k]) + blks[k].n <= to + Total(blks)
    requires BlockMoved(g, mem, blks[k].h + HEADER, blks[k].n, to + Total(blks[..k]))
    ensures mem[a] == g.mem[a]
  {
    forall t: nat | t < |g.tokens| ensures g.tokens[t].at != a {
      HomeOffHeader(g0.tokens, blks, k, to, t);
    }
    assert Unregistered(g, a);
    PlaceOff(a, blks, to, j);
  }

  /** The tokens after the move of block k. */
  lemma TokensStep(tokens: seq<Token>, blks: seq<Blk>, k: nat, to: nat)
    requires k < |blks|
    ensures MovedTokens(HomeTokens(tokens, blks[..k], to), blks[k].h + HEADER, blks[k].n, to + Total(blks[..k]))
         == HomeTokens(tokens, blks[..k + 1], to)
  {
    var l := MovedTokens(HomeTokens(tokens, blks[..k], to), blks[k].h + HEADER, blks[k].n, to + Total(blks[..k]));
    var r := HomeTokens(tokens, blks[..k + 1], to);
    forall t: nat | t < |tokens| ensures l[t] == r[t] {
      HomeStep(tokens[t].at, blks, k, to);
    }
  }

  lemma IdsStep(ids0: map<string, Ilist>, ids: map<string, Ilist>, ids': map<string, Ilist>, blks: seq<Blk>, k: nat,
      to: nat)
    requires k < |blks| && HomeIds(ids0, ids, blks[..k], to) && ids'.Keys == ids.Keys
    requires forall id ::
        id in ids ==> ids'[id] == MovedEntry(ids[id], blks[k].h + HEADER, blks[k].n, to + Total(blks[..k]))
    ensures HomeIds(ids0, ids', blks[..k + 1], to)
  {
    forall id | id in ids0
      ensures ids'[id].ptr == Home(ids0[id].ptr, blks[..k + 1], to) && ids'[id].size == ids0[id].size
          && ids'[id].ty == ids0[id].ty
    {
      HomeStep(ids0[id].ptr, blks, k, to);
      assert ids[id].ptr == Home(ids0[id].ptr, blks[..k], to);
    }
  }

  /** The plain words after the move and the freeing of block k. */
  lemma CarriedStep(g0: Graph, g: Graph, mem: map<nat, nat>, mem': map<nat, nat>, ptr: nat, blks: seq<Blk>, k: nat,
      to: nat)
    requires PlaceOk(g0, blks, to) && Saving(g0, g, ptr, blks, k, to) && k < |blks|
    requires BlockMoved(g, mem, blks[k].h + HEADER, blks[k].n, to + Total(blks[..k])) && Freed(mem, mem', blks[k])
    ensures Carried(g0, mem', blks, k + 1, to)
  {
    forall a: nat | Plain(g0, blks, to, a)
      ensures Home(a, blks[..k + 1], to) in mem' && mem'[Home(a, blks[..k + 1], to)] == g0.mem[a] {
      CarriedOne(g0, g, mem, mem', blks, k, to, a);
    }
  }

  lemma CarriedOne(g0: Graph, g: Graph, mem: map<nat, nat>, mem': map<nat, nat>, blks: seq<Blk>, k: nat, to: nat,
      a: nat)
    requires PlaceOk(g0, blks, to) && k < |blks| && g.tokens == HomeTokens(g0.tokens, blks[..k], to)
    requires Carried(g0, g.mem, blks, k, to) && Plain(g0, blks, to, a)
    requires BlockMoved(g, mem, blks[k].h + HEADER, blks[k].n, to + Total(blks[..k])) && Freed(mem, mem', blks[k])
    ensures Home(a, blks[..k + 1], to) in mem' && mem'[Home(a, blks[..k + 1], to)] == g0.mem[a]
  {
    var x := Home(a, blks[..k], to);
    HomeStep(a, blks, k, to);
    HomeOutside(a, blks, k, to);
    TotalStep(blks, k);
    TotalPrefix(blks, k + 1);
    HomeOffBlock(a, blks, k + 1, to, k);
    forall t: nat | t < |g.tokens| ensures g.tokens[t].at != x {
      HomeInjective(a, g0.tokens[t].at, blks, k, to);
    }
    assert Unregistered(g, x);
  }

  /** Block k is done. */
  lemma SavedOne(g0: Graph, g: Graph, h: Graph, mem: map<nat, nat>, ptr: nat, blks: seq<Blk>, k: nat, to: nat,
      ptr': nat)
    requires PlaceOk(g0, blks, to) && Saving(g0, g, ptr, blks, k, to) && k < |blks|
    requires BlockMoved(g, mem, blks[k].h + HEADER, blks[k].n, to + Total(blks[..k])) && Freed(mem, h.mem, blks[k])
    requires h.tokens == MovedTokens(g.tokens, blks[k].h + HEADER, blks[k].n, to + Total(blks[..k]))
    requires h.ids.Keys == g.ids.Keys
    requires forall id ::
        id in g.ids ==> h.ids[id] == MovedEntry(g.ids[id], blks[k].h + HEADER, blks[k].n, to + Total(blks[..k]))
    requires Queued(h.mem, ptr', blks, k + 1) && BlocksFrom(h.mem, blks, k + 1)
    ensures Saving(g0, h, ptr', blks, k + 1, to)
  {
    hide Home, Total, Sound, NoHeader;
    TokensStep(g0.tokens, blks, k, to);
    IdsStep(g0.ids, g.ids, h.ids, blks, k, to);
    CarriedStep(g0, g, mem, h.mem, ptr, blks, k, to);
    forall x: nat | Within(x, to, Total(blks)) ensures x in h.mem {
      PlaceOff(x, blks, to, k);
      assert x in mem;
    }
  }

  /** The first k blocks are still there, and what is in no block is as it
      was. */
  ghost predicate Ending(m: map<nat, nat>, mem: map<nat, nat>, blks: seq<Blk>, k: nat) {
    && k <= |blks|
    && (forall j: nat :: j < k ==> BlockAt(mem, blks[j]))
    && (forall j: nat {:trigger OlderAt(mem, blks, j)} :: j < k ==> OlderAt(mem, blks, j))
    && (forall a: nat {:trigger mem[a]} {:trigger InSome(blks, a)} ::
       a in m && !InSome(blks, a) ==> a in mem && mem[a] == m[a])
  }

  lemma EndingStep(m: map<nat, nat>, was: map<nat, nat>, mem: map<nat, nat>, blks: seq<Blk>, k: nat)
    requires AllSeparate(blks) && k < |blks| && Ending(m, was, blks, k + 1) && Freed(was, mem, blks[k])
    ensures Ending(m, mem, blks, k)
  {
    forall j: nat | j < k ensures BlockAt(mem, blks[j]) && OlderAt(mem, blks, j) {
      assert BlockAt(was, blks[j]) && OlderAt(was, blks, j);
      assert Separate(blks[j], blks[k]);
      FreedOther(was, mem, blks[k], blks[j]);
    }
    forall a: nat | a in m && !InSome(blks, a) ensures a in mem && mem[a] == m[a] {
      assert a in was && was[a] == m[a];
      assert !Within(a, blks[k].h, blks[k].n + HEADER);
    }
  }

  lemma EndingHead(m: map<nat, nat>, mem: map<nat, nat>, blks: seq<Blk>, k: nat)
    requires Ending(m, mem, blks, k)
    ensures k > 0 ==> Older(blks, k) != 0 && BlockAt(mem, blks[k - 1]) && OlderAt(mem, blks, k - 1)
  {
    assert k > 0 ==> BlockAt(mem, blks[k - 1]);
  }

  lemma FreedBy(mem: map<nat, nat>, b: Blk)
    ensures Freed(mem, map x | x in mem && !Within(x, b.h, b.n + HEADER) :: mem[x], b)
  {
  }

  /** Frees whatever blocks are left. */
  method EndBlock(soap: Soap, b: Blist)
    requires soap.Valid() && AllSeparate(b.blks) && BlocksFrom(soap.mem, b.blks, 0) && Stacked(soap.mem, b.ptr, b.blks)
    requires forall t: nat, j: nat {:trigger soap.tokens[t], b.blks[j]} ::
        t < |soap.tokens| && j < |b.blks| ==> !Within(soap.tokens[t].at, b.blks[j].h, b.blks[j].n + HEADER)
    modifies soap`mem, b
    ensures soap.Valid() && b.ptr == 0 && b.blks == [] && b.size == 0
    ensures Ending(old(soap.mem), soap.mem, old(b.blks), 0)
  {
    hide TableOk, Sound, Ending, Freed;
    ghost var g := soap.G();
    ghost var blks := b.blks;
    ghost var k: nat := |blks|;
    var p := b.ptr;
    EndingStart(soap.mem, blks, p);
    EndingHead(g.mem, soap.mem, blks, k);
    while p != 0
      invariant k <= |blks| && p == Older(blks, k) && (k > 0 ==> p != 0)
      invariant Sound(soap.G()) && Ending(g.mem, soap.mem, blks, k)
      decreases k
      modifies soap`mem
    {
      EndingHead(g.mem, soap.mem, blks, k);
      k := k - 1;
      ghost var was := soap.G();
      var q := soap.mem[p];
      var n := soap.mem[p + 1];
      FreedBy(soap.mem, blks[k]);
      soap.mem := map x | x in soap.mem && !Within(x, p, n + HEADER) :: soap.mem[x];
      FreedSound(was, soap.mem, blks[k]);
      assert soap.G() == was.(mem := soap.mem);
      EndingStep(g.mem, was.mem, soap.mem, blks, k);
      EndingHead(g.mem, soap.mem, blks, k);
      p := q;
    }
    b.ptr, b.size, b.blks := 0, 0, [];
  }

  lemma EndingStart(mem: map<nat, nat>, blks: seq<Blk>, ptr: nat)
    requires BlocksFrom(mem, blks, 0) && Stacked(mem, ptr, blks)
    ensures Ending(mem, mem, blks, |blks|)
  {
  }

  ghost predicate InSome(blks: seq<Blk>, a: nat) {
    exists j: nat :: j < |blks| && Within(a, blks[j].h, blks[j].n + HEADER)
  }

  /** Saves all blocks in a contiguous place, which the caller gives or the
      allocator chooses. Every registered reference and every target inside
      them is at its new home afterwards, and so is every other word. */
  method SaveBlock(soap: Soap, b: Blist, p: nat, spare: nat) returns (r: nat)
    requires soap.Valid() && b.Valid(soap.mem) && NoHeader(soap.tokens, b.blks)
    requires p != 0 ==> PlaceOk(soap.G(), b.blks, p) && HasPlace(soap.mem, p, b.size)
    requires p == 0 ==> spare != 0 && Unused(soap.mem, spare, b.size)
    modifies soap, b
    ensures soap.Valid() && b.ptr == 0 && b.blks == []
    ensures old(b.size) == 0 ==> r == p && soap.tokens == old(soap.tokens) && soap.ids == old(soap.ids)
    ensures old(b.size) != 0 ==>
              && r == (if p == 0 then spare else p)
              && soap.tokens == HomeTokens(old(soap.tokens), old(b.blks), r)
              && HomeIds(old(soap.ids), soap.ids, old(b.blks), r)
              && HasPlace(soap.mem, r, old(b.size))
              && Carried(old(soap.G()), soap.mem, old(b.blks), |old(b.blks)|, r)
  {
    r := p;
    if b.size == 0 {
      EmptyBlocks(soap, b);
      EndBlock(soap, b);
      return;
    }
    hide TableOk, Sound, PlaceOk, HasPlace, Grew, Saving, Carried, HomeIds, Blocks, Stacked, NoHeader, HomeTokens;
    ghost var g := soap.G();
    ghost var blks := b.blks;
    if r == 0 {
      r := soap.Malloc(b.size, spare);
      NewPlace(g, soap.G(), b.blks, spare, b.size);
      GrewChain(g.mem, soap.mem, b.blks, b.ptr, spare, b.size);
    }
    ghost var g1 := soap.G();
    NotEmpty(b);
    MoveBlocks(soap, b, r);
    SavedMeans(g, g1, soap.G(), blks, r);
    b.ptr, b.size, b.blks := 0, 0, [];
  }

  lemma NotEmpty(b: Blist)
    requires b.size != 0 && b.size == Total(b.blks)
    ensures b.blks != []
  {
  }

  /** What the loop says, in terms of the memory before the allocation. */
  lemma SavedMeans(g: Graph, g1: Graph, h: Graph, blks: seq<Blk>, to: nat)
    requires g1 == g || (g1 == g.(mem := g1.mem) && Grew(g.mem, g1.mem, to, Total(blks)))
    requires Saving(g1, h, 0, blks, |blks|, to)
    ensures h.tokens == HomeTokens(g.tokens, blks, to) && HomeIds(g.ids, h.ids, blks, to)
    ensures HasPlace(h.mem, to, Total(blks)) && Carried(g, h.mem, blks, |blks|, to)
  {
    assert blks[..|blks|] == blks;
    forall a: nat | Plain(g, blks, to, a)
      ensures Home(a, blks[..|blks|], to) in h.mem && h.mem[Home(a, blks[..|blks|], to)] == g.mem[a] {
      assert a in g1.mem && g1.mem[a] == g.mem[a];
      assert Plain(g1, blks, to, a) by { assert Unregistered(g1, a); }
    }
  }

  /** The loop over the blocks. */
  method MoveBlocks(soap: Soap, b: Blist, r: nat)
    requires soap.Valid() && b.Valid(soap.mem) && b.blks != [] && PlaceOk(soap.G(), b.blks, r)
        && HasPlace(soap.mem, r, b.size)
    modifies soap, b`ptr
    ensures soap.Valid() && b.ptr == 0
    ensures Saving(old(soap.G()), soap.G(), 0, b.blks, |b.blks|, r)
  {
    hide TableOk, Sound, Blocks, Saving, PlaceOk, BlockMoved, Freed, HasPlace, HeadersOnly, MovedEntry, Stacked;
    ghost var g0 := soap.G();
    ghost var blks := b.blks;
    PlaceMeans(g0, blks, r);
    var s := r;
    var q := FirstBlock(soap, b);
    StartSaving(g0, soap.G(), b.ptr, blks, r);
    ghost var k: nat := 0;
    while q != 0
      invariant k <= |blks| && b.blks == blks && soap.Valid() && Saving(g0, soap.G(), b.ptr, blks, k, r)
      invariant q == if k < |blks| then blks[k].h + HEADER else 0
      invariant s == r + Total(blks[..k])
      decreases |blks| - k
      modifies soap, b`ptr
    {
      MoveReady(g0, soap.G(), b.ptr, blks, k, r);
      SavingQueue(g0, soap.G(), b.ptr, blks, k, r);
      var n := soap.mem[b.ptr + 1];
      ghost var g := soap.G();
      ghost var ptr := b.ptr;
      MoveBlock(soap, q, n, s);
      ghost var mem := soap.mem;
      MovedQueue(g0, g, mem, ptr, blks, k, r);
      TokensGone(g0, g, soap.tokens, ptr, blks, k, r);
      q := NextBlock(soap, b, k);
      SavedOne(g0, g, soap.G(), mem, ptr, blks, k, r, b.ptr);
      TotalStep(blks, k);
      s := s + n;
      k := k + 1;
    }
    SavingQueue(g0, soap.G(), b.ptr, blks, k, r);
  }

  lemma PlaceMeans(g0: Graph, blks: seq<Blk>, to: nat)
    requires PlaceOk(g0, blks, to)
    ensures to > 0 && AllSeparate(blks) && NoHeader(g0.tokens, blks)
  {
  }

  lemma SavingQueue(g0: Graph, g: Graph, ptr: nat, blks: seq<Blk>, k: nat, to: nat)
    requires Saving(g0, g, ptr, blks, k, to)
    ensures Queued(g.mem, ptr, blks, k) && BlocksFrom(g.mem, blks, k)
  {
  }

  lemma TokensGone(g0: Graph, g: Graph, tokens: seq<Token>, ptr: nat, blks: seq<Blk>, k: nat, to: nat)
    requires PlaceOk(g0, blks, to) && Saving(g0, g, ptr, blks, k, to) && k < |blks|
    requires tokens == MovedTokens(g.tokens, blks[k].h + HEADER, blks[k].n, to + Total(blks[..k]))
    ensures forall t: nat {:trigger tokens[t]} :: t < |tokens| ==> !Within(tokens[t].at, blks[k].h, blks[k].n + HEADER)
  {
    TokensStep(g0.tokens, blks, k, to);
    forall t: nat | t < |tokens| ensures !Within(tokens[t].at, blks[k].h, blks[k].n + HEADER) {
      TokenPlace(g0, blks, k + 1, to, t);
    }
  }

  /** A place that the allocator gives is free. */
  lemma NewPlace(g: Graph, h: Graph, blks: seq<Blk>, spare: nat, n: nat)
    requires Sound(g) && Blocks(g.mem, blks) && NoHeader(g.tokens, blks) && n == Total(blks)
    requires Grew(g.mem, h.mem, spare, n) && h.tokens == g.tokens
    ensures PlaceOk(h, blks, spare) && HasPlace(h.mem, spare, n)
  {
    forall t: nat | t < |g.tokens| ensures !Within(g.tokens[t].at, spare, n) {
      assert TokenOk(g, t);
    }
    forall j: nat | j < |blks| ensures Disjoint(spare, Total(blks), blks[j].h, blks[j].n + HEADER) {
      assert BlockAt(g.mem, blks[j]);
    }
  }

  lemma GrewChain(m: map<nat, nat>, mem: map<nat, nat>, blks: seq<Blk>, ptr: nat, spare: nat, n: nat)
    requires Blocks(m, blks) && Stacked(m, ptr, blks) && Grew(m, mem, spare, n)
    ensures Blocks(mem, blks) && Stacked(mem, ptr, blks)
  {
    forall j: nat | 0 <= j < |blks| ensures BlockAt(mem, blks[j]) && OlderAt(mem, blks, j) {
      assert BlockAt(m, blks[j]) && OlderAt(m, blks, j);
      GrewBlock(m, mem, blks[j], spare, n);
    }
  }

  lemma GrewBlock(m: map<nat, nat>, mem: map<nat, nat>, b: Blk, spare: nat, n: nat)
    requires BlockAt(m, b) && Grew(m, mem, spare, n)
    ensures BlockAt(mem, b)
  {
    forall x: nat | Within(x, b.h, b.n + HEADER) ensures x in mem {
      assert x in m;
    }
    assert b.h + 1 in m;
  }

  /** Blocks without words have nothing registered in them. */
  lemma EmptyBlocks(soap: Soap, b: Blist)
    requires b.Valid(soap.mem) && NoHeader(soap.tokens, b.blks) && b.size == 0
    ensures forall t: nat, j: nat {:trigger soap.tokens[t], b.blks[j]} ::
        t < |soap.tokens| && j < |b.blks| ==> !Within(soap.tokens[t].at, b.blks[j].h, b.blks[j].n + HEADER)
  {
    forall j: nat | j < |b.blks| ensures b.blks[j].n == 0 {
      TotalStep(b.blks, j);
      TotalPrefix(b.blks, j + 1);
    }
  }
}
