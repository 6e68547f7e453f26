/** The temporary blocks that a growing array is parsed into, and their move
    into one contiguous place, with every registered reference following. */
module SoapBlocks {
  import opened SoapGraph
  import opened SoapCopies
  import opened SoapRefs

  /** A block of n words behind a header of two: the block before it, and the
      number of words. */
  datatype Blk = Blk(h: nat, n: nat)

  const HEADER := 2

  ghost predicate BlockAt(mem: map<nat, nat>, b: Blk) {
    && b.h != 0
    && (forall x: nat :: Within(x, b.h, b.n + HEADER) ==> x in mem)
    && b.h + 1 in mem && mem[b.h + 1] == b.n
  }

  ghost predicate Blocks(mem: map<nat, nat>, blks: seq<Blk>) {
    BlocksFrom(mem, blks, 0) && AllSeparate(blks)
  }

  ghost predicate BlocksFrom(mem: map<nat, nat>, blks: seq<Blk>, k: nat) {
    forall j: nat :: k <= j < |blks| ==> BlockAt(mem, blks[j])
  }

  ghost predicate AllSeparate(blks: seq<Blk>) {
    (forall i: nat, j: nat :: i < j < |blks| ==> Separate(blks[i], blks[j]))
  }

  ghost predicate Separate(a: Blk, b: Blk) {
    Disjoint(a.h, a.n + HEADER, b.h, b.n + HEADER)
  }

  function Total(blks: seq<Blk>): nat {
    if |blks| == 0 then 0 else Total(blks[..|blks| - 1]) + blks[|blks| - 1].n
  }

  function Newer(blks: seq<Blk>, j: nat): nat {
    if j < |blks| then blks[j].h else 0
  }

  function Older(blks: seq<Blk>, j: nat): nat
    requires j <= |blks|
  {
    if j == 0 then 0 else blks[j - 1].h
  }

  /** The chain of blocks while they are filled: the newest first. */
  ghost predicate Stacked(mem: map<nat, nat>, ptr: nat, blks: seq<Blk>) {
    && ptr == Older(blks, |blks|)
    && (forall j: nat {:trigger OlderAt(mem, blks, j)} :: j < |blks| ==> OlderAt(mem, blks, j))
  }

  ghost predicate OlderAt(mem: map<nat, nat>, blks: seq<Blk>, j: nat)
    requires j < |blks|
  {
    blks[j].h in mem && mem[blks[j].h] == Older(blks, j)
  }

  /** The chain while they are saved: the oldest first, from block k on. */
  ghost predicate Queued(mem: map<nat, nat>, ptr: nat, blks: seq<Blk>, k: nat) {
    && k <= |blks| && ptr == Newer(blks, k)
    && (forall j: nat {:trigger NewerAt(mem, blks, j)} :: k <= j < |blks| ==> NewerAt(mem, blks, j))
  }

  ghost predicate NewerAt(mem: map<nat, nat>, blks: seq<Blk>, j: nat)
    requires j < |blks|
  {
    blks[j].h in mem && mem[blks[j].h] == Newer(blks, j + 1)
  }

  /** The blocks of one array. */
  class Blist {
    var ptr: nat
    var size: nat
    ghost var blks: seq<Blk>

    ghost predicate Valid(mem: map<nat, nat>)
      reads this
    {
      Blocks(mem, blks) && Stacked(mem, ptr, blks) && size == Total(blks)
    }

    constructor ()
      ensures blks == [] && forall mem :: Valid(mem)
    {
      ptr, size := 0, 0;
      blks := [];
    }
  }

  /** A block of n words in front of the others. */
  method PushBlock(soap: Soap, b: Blist, n: nat, spare: nat) returns (r: nat)
    requires soap.Valid() && b.Valid(soap.mem) && spare != 0 && Unused(soap.mem, spare, n + HEADER)
    modifies soap`mem, b
    ensures soap.Valid() && b.Valid(soap.mem) && b.blks == old(b.blks) + [Blk(spare, n)] && r == spare + HEADER
    ensures Grew(old(soap.mem), soap.mem, spare, n + HEADER)
  {
    hide TableOk, Sound, Blocks, Stacked, Unused, Grew;
    ghost var g := soap.G();
    ghost var blks := b.blks;
    r := soap.Malloc(n + HEADER, spare);
    GrewStore(g.mem, soap.mem, spare, n + HEADER, spare, b.ptr);
    soap.mem := soap.mem[r := b.ptr];
    GrewStore(g.mem, soap.mem, spare, n + HEADER, spare + 1, n);
    soap.mem := soap.mem[r + 1 := n];
    GrewSound(g, soap.mem, spare, n + HEADER);
    assert soap.G() == g.(mem := soap.mem);
    PushedBlocks(g.mem, soap.mem, blks, spare, n);
    PushedStack(g.mem, soap.mem, blks, b.ptr, spare, n);
    b.ptr := r;
    b.size := b.size + n;
    b.blks := b.blks + [Blk(spare, n)];
    assert b.blks[..|blks|] == blks;
    r := r + HEADER;
  }

  lemma GrewStore(m: map<nat, nat>, mem: map<nat, nat>, a: nat, n: nat, x: nat, v: nat)
    requires Grew(m, mem, a, n) && a <= x < a + n
    ensures x !in m && Grew(m, mem[x := v], a, n)
  {
    assert Within(x, a, n);
  }

  lemma BlockStays(m: map<nat, nat>, mem: map<nat, nat>, b: Blk)
    requires BlockAt(m, b) && forall x: nat :: Within(x, b.h, b.n + HEADER) && x in m ==> x in mem && mem[x] == m[x]
    ensures BlockAt(mem, b)
  {
    assert Within(b.h + 1, b.h, b.n + HEADER);
  }

  lemma PushedBlocks(m: map<nat, nat>, mem: map<nat, nat>, blks: seq<Blk>, spare: nat, n: nat)
    requires Blocks(m, blks) && Grew(m, mem, spare, n + HEADER) && spare + 1 in mem && mem[spare + 1] == n
    ensures Blocks(mem, blks + [Blk(spare, n)])
  {
    hide Separate, BlockAt, Within;
    var bs := blks + [Blk(spare, n)];
    forall j: nat | j < |bs| ensures BlockAt(mem, bs[j]) {
      if j < |blks| {
        BlockStays(m, mem, blks[j]);
      } else {
        NewBlock(m, mem, spare, n);
      }
    }
    forall i: nat, j: nat | i < j < |bs| ensures Separate(bs[i], bs[j]) {
      if j < |blks| {
        assert Separate(blks[i], blks[j]);
      } else {
        NewApart(m, mem, blks[i], Blk(spare, n));
      }
    }
  }

  lemma NewBlock(m: map<nat, nat>, mem: map<nat, nat>, spare: nat, n: nat)
    requires Grew(m, mem, spare, n + HEADER) && spare + 1 in mem && mem[spare + 1] == n
    ensures BlockAt(mem, Blk(spare, n))
  {
  }

  lemma NewApart(m: map<nat, nat>, mem: map<nat, nat>, a: Blk, b: Blk)
    requires BlockAt(m, a) && Grew(m, mem, b.h, b.n + HEADER)
    ensures Separate(a, b)
  {
  }

  lemma PushedStack(m: map<nat, nat>, mem: map<nat, nat>, blks: seq<Blk>, ptr: nat, spare: nat, n: nat)
    requires Stacked(m, ptr, blks) && Grew(m, mem, spare, n + HEADER) && spare in mem && mem[spare] == ptr
    ensures Stacked(mem, spare, blks + [Blk(spare, n)])
  {
    var bs := blks + [Blk(spare, n)];
    forall j: nat | j < |bs| ensures OlderAt(mem, bs, j) {
      if j < |blks| {
        assert OlderAt(m, blks, j);
      }
    }
  }

  // ---------- walking the chain of blocks ----------

  /** No reference is registered inside a header. */
  ghost predicate NoHeader(tokens: seq<Token>, blks: seq<Blk>) {
    forall t: nat, j: nat {:trigger tokens[t], blks[j]} ::
        t < |tokens| && j < |blks| ==> !Within(tokens[t].at, blks[j].h, HEADER)
  }

  /** Only the chain words of blocks changed. */
  ghost predicate HeadersOnly(m: map<nat, nat>, mem: map<nat, nat>, blks: seq<Blk>) {
    && mem.Keys == m.Keys
    && (forall a: nat {:trigger mem[a]} :: a in m && !IsHead(blks, a) ==> mem[a] == m[a])
  }

  ghost predicate IsHead(blks: seq<Blk>, a: nat) {
    exists j: nat :: j < |blks| && blks[j].h == a
  }

  lemma HeadsApart(blks: seq<Blk>, i: nat, j: nat)
    requires AllSeparate(blks) && i < |blks| && j < |blks| && i != j
    ensures blks[i].h != blks[j].h && blks[i].h + 1 != blks[j].h
  {
    var a, b := if i < j then blks[i] else blks[j], if i < j then blks[j] else blks[i];
    assert Separate(a, b);
    assert Within(a.h, a.h, a.n + HEADER) && Within(b.h, b.h, b.n + HEADER);
    assert Within(a.h + 1, a.h, a.n + HEADER) && Within(b.h + 1, b.h, b.n + HEADER);
  }

  lemma HeadersSound(g: Graph, mem: map<nat, nat>, blks: seq<Blk>)
    requires Sound(g) && NoHeader(g.tokens, blks) && HeadersOnly(g.mem, mem, blks)
    ensures Sound(g.(mem := mem))
  {
    forall t: nat | t < |g.tokens| ensures g.tokens[t].at in mem && mem[g.tokens[t].at] == g.mem[g.tokens[t].at] {
      assert TokenOk(g, t);
      forall j: nat | j < |blks| ensures blks[j].h != g.tokens[t].at {
        assert !Within(g.tokens[t].at, blks[j].h, HEADER);
      }
    }
    MemorySound(g, mem);
  }

  lemma HeadersBlocks(m: map<nat, nat>, mem: map<nat, nat>, blks: seq<Blk>)
    requires Blocks(m, blks) && HeadersOnly(m, mem, blks)
    ensures Blocks(mem, blks)
  {
    forall j: nat | 0 <= j < |blks| ensures BlockAt(mem, blks[j]) {
      assert BlockAt(m, blks[j]);
      forall i: nat | i < |blks| ensures blks[i].h != blks[j].h + 1 {
        if i != j {
          HeadsApart(blks, j, i);
        }
      }
    }
  }

  /** Reverses the chain, so that the oldest block comes first. */
  method FirstBlock(soap: Soap, b: Blist) returns (q: nat)
    requires soap.Valid() && Blocks(soap.mem, b.blks) && Stacked(soap.mem, b.ptr, b.blks)
        && NoHeader(soap.tokens, b.blks)
    modifies soap`mem, b`ptr
    ensures soap.Valid() && Blocks(soap.mem, b.blks) && Queued(soap.mem, b.ptr, b.blks, 0)
    ensures HeadersOnly(old(soap.mem), soap.mem, b.blks)
    ensures q == if b.blks == [] then 0 else b.blks[0].h + HEADER
  {
    hide TableOk, Sound, Blocks, HeadersOnly;
    ghost var g := soap.G();
    ghost var blks := b.blks;
    ghost var k: nat := |blks|;
    var p := b.ptr;
    HeadersNone(soap.mem, blks);
    if p == 0 {
      NoBlocks(soap.mem, blks);
      return 0;
    }
    var r := 0;
    HeadAt(soap.mem, blks, k);
    while p != 0
      invariant k <= |blks| && p == Older(blks, k) && r == Newer(blks, k) && (k > 0 ==> p != 0)
      invariant HeadersOnly(g.mem, soap.mem, blks)
      invariant forall j: nat {:trigger OlderAt(soap.mem, blks, j)} :: j < k ==> OlderAt(soap.mem, blks, j)
      invariant forall j: nat {:trigger NewerAt(soap.mem, blks, j)} :: k <= j < |blks| ==> NewerAt(soap.mem, blks, j)
      decreases k
      modifies soap`mem
    {
      k := k - 1;
      assert OlderAt(soap.mem, blks, k);
      ghost var was := soap.mem;
      var next := soap.mem[p];
      soap.mem := soap.mem[p := r];
      TurnHead(g.mem, was, soap.mem, blks, k);
      r := p;
      p := next;
      HeadAt(g.mem, blks, k);
    }
    b.ptr := r;
    HeadersSound(g, soap.mem, blks);
    HeadersBlocks(g.mem, soap.mem, blks);
    assert soap.G() == g.(mem := soap.mem);
    q := r + HEADER;
  }

  lemma HeadersNone(m: map<nat, nat>, blks: seq<Blk>)
    ensures HeadersOnly(m, m, blks)
  {
  }

  lemma NoBlocks(m: map<nat, nat>, blks: seq<Blk>)
    requires Blocks(m, blks) && Older(blks, |blks|) == 0
    ensures blks == []
  {
    assert |blks| > 0 ==> BlockAt(m, blks[|blks| - 1]);
  }

  lemma HeadAt(m: map<nat, nat>, blks: seq<Blk>, k: nat)
    requires Blocks(m, blks) && k <= |blks|
    ensures k > 0 ==> Older(blks, k) != 0
  {
    if k > 0 {
      assert BlockAt(m, blks[k - 1]);
    }
  }

  lemma TurnHead(m: map<nat, nat>, was: map<nat, nat>, mem: map<nat, nat>, blks: seq<Blk>, k: nat)
    requires Blocks(m, blks) && k < |blks| && blks[k].h in was && mem == was[blks[k].h := Newer(blks, k + 1)]
    requires HeadersOnly(m, was, blks)
    ensures HeadersOnly(m, mem, blks) && NewerAt(mem, blks, k)
    ensures forall j: nat {:trigger OlderAt(mem, blks, j)} :: j < k && OlderAt(was, blks, j) ==> OlderAt(mem, blks, j)
    ensures forall j: nat {:trigger NewerAt(mem, blks, j)} ::
        k < j < |blks| && NewerAt(was, blks, j) ==> NewerAt(mem, blks, j)
  {
    assert IsHead(blks, blks[k].h);
    forall j: nat | j < |blks| && j != k ensures blks[j].h != blks[k].h {
      HeadsApart(blks, j, k);
    }
  }

  /** The words of a block are gone. */
  ghost predicate Freed(m: map<nat, nat>, mem: map<nat, nat>, b: Blk) {
    && (forall x: nat {:trigger x in mem} :: x in mem ==> x in m && !Within(x, b.h, b.n + HEADER))
    && (forall x: nat {:trigger x in m} {:trigger mem[x]} ::
       x in m && !Within(x, b.h, b.n + HEADER) ==> x in mem && mem[x] == m[x])
  }

  lemma FreedBlocks(m: map<nat, nat>, mem: map<nat, nat>, blks: seq<Blk>, k: nat, ptr: nat)
    requires k < |blks| && BlocksFrom(m, blks, k) && AllSeparate(blks) && Queued(m, ptr, blks, k)
        && Freed(m, mem, blks[k])
    ensures BlocksFrom(mem, blks, k + 1) && Queued(mem, Newer(blks, k + 1), blks, k + 1)
  {
    forall j: nat | k + 1 <= j < |blks| ensures BlockAt(mem, blks[j]) && NewerAt(mem, blks, j) {
      assert BlockAt(m, blks[j]) && NewerAt(m, blks, j);
      assert Separate(blks[k], blks[j]);
      FreedOther(m, mem, blks[k], blks[j]);
    }
  }

  lemma FreedOther(m: map<nat, nat>, mem: map<nat, nat>, b: Blk, c: Blk)
    requires Freed(m, mem, b) && Separate(b, c) && BlockAt(m, c)
    ensures BlockAt(mem, c) && c.h in m && c.h in mem && mem[c.h] == m[c.h]
  {
    assert Within(c.h, c.h, c.n + HEADER) && Within(c.h + 1, c.h, c.n + HEADER);
    forall x: nat | Within(x, c.h, c.n + HEADER) ensures x in mem && mem[x] == m[x] {
      assert !Within(x, b.h, b.n + HEADER);
      assert x in m;
    }
  }

  lemma FreedSound(g: Graph, mem: map<nat, nat>, b: Blk)
    requires Sound(g) && Freed(g.mem, mem, b)
    requires forall t: nat {:trigger g.tokens[t]} :: t < |g.tokens| ==> !Within(g.tokens[t].at, b.h, b.n + HEADER)
    ensures Sound(g.(mem := mem))
  {
    forall t: nat | t < |g.tokens| ensures g.tokens[t].at in mem && mem[g.tokens[t].at] == g.mem[g.tokens[t].at] {
      assert TokenOk(g, t);
    }
    assert 0 !in mem;
    MemorySound(g, mem);
  }

  /** Frees the first block of the queue. */
  method NextBlock(soap: Soap, b: Blist, ghost k: nat) returns (q: nat)
    requires soap.Valid() && k < |b.blks| && Queued(soap.mem, b.ptr, b.blks, k) && BlocksFrom(soap.mem, b.blks, k)
        && AllSeparate(b.blks)
    requires forall t: nat {:trigger soap.tokens[t]} ::
        t < |soap.tokens| ==> !Within(soap.tokens[t].at, b.blks[k].h, b.blks[k].n + HEADER)
    modifies soap`mem, b`ptr
    ensures soap.Valid() && Queued(soap.mem, b.ptr, b.blks, k + 1) && BlocksFrom(soap.mem, b.blks, k + 1)
    ensures Freed(old(soap.mem), soap.mem, b.blks[k])
    ensures q == if k + 1 < |b.blks| then b.blks[k + 1].h + HEADER else 0
  {
    hide TableOk, Sound;
    ghost var g := soap.G();
    assert BlockAt(soap.mem, b.blks[k]) && NewerAt(soap.mem, b.blks, k);
    var p := b.ptr;
    var n := soap.mem[p + 1];
    b.ptr := soap.mem[p];
    soap.mem := map x | x in soap.mem && !Within(x, p, n + HEADER) :: soap.mem[x];
    FreedBlocks(g.mem, soap.mem, b.blks, k, p);
    FreedSound(g, soap.mem, b.blks[k]);
    assert soap.G() == g.(mem := soap.mem);
    assert k + 1 < |b.blks| ==> BlockAt(soap.mem, b.blks[k + 1]);
    q := if b.ptr != 0 then b.ptr + HEADER else 0;
  }
}
