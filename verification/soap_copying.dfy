/** The rounds of copying, and the whole of the resolution. */
module SoapCopying {
  import opened SoapGraph
  import opened SoapCopies
  import opened SoapRefs
  import opened SoapResolve

  /** The copies that are still to be made. */
  ghost function WaitSet(tokens: seq<Token>): set<nat> {
    set t: nat | t < |tokens| && tokens[t].fate == Pending && tokens[t].kind != Slot
  }

  ghost function Backlog(tokens: seq<Token>): nat {
    |WaitSet(tokens)|
  }

  lemma Smaller(a: set<nat>, b: set<nat>, x: nat)
    requires a == b - {x} && x in b
    ensures |a| < |b|
  {
  }

  // ---------- whether anything inside an object still waits ----------

  ghost predicate BlockedBy(g: Graph, id: string, a: nat, n: nat) {
    exists t: nat :: Waits(g, t) && g.tokens[t].id == id && Within(g.tokens[t].at, a, n)
  }

  /** Some place of the chain is among the n words at a. */
  ghost predicate Meets(pl: seq<nat>, a: nat, n: nat) {
    exists j: nat :: j < |pl| && Within(pl[j], a, n)
  }

  method ChainMeets(soap: Soap, head: nat, start: nat, end: nat, ghost pl: seq<nat>) returns (b: bool)
    requires Thread(soap.mem, head, pl) && start <= end
    ensures b == Meets(pl, start, end - start)
  {
    var p := head;
    ghost var k: nat := |pl|;
    assert k > 0 ==> Linked(soap.mem, pl, k - 1);
    while p != 0
      invariant k <= |pl| && p == Under(pl, k) && (k > 0 ==> p != 0)
      invariant forall j: nat :: k <= j < |pl| ==> !Within(pl[j], start, end - start)
      decreases k
    {
      k := k - 1;
      assert Linked(soap.mem, pl, k);
      if p >= start && p < end {
        assert Within(pl[k], start, end - start);
        return true;
      }
      p := soap.mem[p];
      assert k > 0 ==> Linked(soap.mem, pl, k - 1);
    }
    b := false;
  }

  method ListMeets(flist: seq<Flist>, start: nat, end: nat, ghost pl: seq<nat>) returns (b: bool)
    requires Listing(flist, pl) && start <= end
    ensures b == Meets(pl, start, end - start)
  {
    var j: nat := |flist|;
    while j != 0
      invariant j <= |flist|
      invariant forall k: nat :: j <= k < |pl| ==> !Within(pl[k], start, end - start)
    {
      j := j - 1;
      if flist[j].ptr >= start && flist[j].ptr < end {
        assert Within(pl[j], start, end - start);
        return true;
      }
    }
    b := false;
  }

  /** An entry blocks what its two chains of copies meet. */
  lemma BlockedByChains(g: Graph, id: string, a: nat, n: nat)
    requires Sound(g) && id in g.ids
    ensures BlockedBy(g, id, a, n) <==>
        Meets(Ats(g.tokens, g.pend[id].copies), a, n) || Meets(Ats(g.tokens, g.pend[id].lists), a, n)
  {
    if BlockedBy(g, id, a, n) {
      var t: nat :| Waits(g, t) && g.tokens[t].id == id && Within(g.tokens[t].at, a, n);
      assert TokenOk(g, t);
      WaitingAt(g, id, g.tokens[t].kind, t);
    }
    ChainBlocks(g, id, Chained, a, n);
    ChainBlocks(g, id, Listed, a, n);
  }

  lemma WaitingAt(g: Graph, id: string, k: Kind, t: nat)
    requires Sound(g) && id in g.ids && t in Of(g.pend[id], k)
    ensures exists j: nat :: j < |Of(g.pend[id], k)| && Ats(g.tokens, Of(g.pend[id], k))[j] == At(g.tokens, t)
  {
    var c := Of(g.pend[id], k);
    var j: nat :| j < |c| && c[j] == t;
    AtsAt(g.tokens, c, j);
    assert Ats(g.tokens, c)[j] == At(g.tokens, t);
  }

  lemma ChainBlocks(g: Graph, id: string, k: Kind, a: nat, n: nat)
    requires Sound(g) && id in g.ids && k != Slot
    ensures Meets(Ats(g.tokens, Of(g.pend[id], k)), a, n) ==> BlockedBy(g, id, a, n)
  {
    var c := Of(g.pend[id], k);
    if Meets(Ats(g.tokens, c), a, n) {
      var j: nat :| j < |c| && Within(Ats(g.tokens, c)[j], a, n);
      AtsAt(g.tokens, c, j);
      WaitingToken(g, id, k, c[j]);
      assert Waits(g, c[j]);
    }
  }

  lemma ListChain(g: Graph, id: string)
    requires Sound(g) && id in g.ids
    ensures Listing(g.ids[id].flist, Ats(g.tokens, g.pend[id].lists))
  {
    assert EntryOk(g.mem, g.tokens, id, g.ids[id], g.pend[id]);
  }

  lemma BlockedBySome(g: Graph, a: nat, n: nat)
    requires Sound(g)
    ensures Blocked(g, a, n) <==> exists id :: id in g.ids && BlockedBy(g, id, a, n)
  {
    if Blocked(g, a, n) {
      var t: nat :| Waits(g, t) && Within(g.tokens[t].at, a, n);
      assert TokenOk(g, t);
      assert BlockedBy(g, g.tokens[t].id, a, n);
    }
  }

  method HasCopies(soap: Soap, start: nat, end: nat) returns (b: bool)
    requires soap.Valid() && start <= end
    ensures b == Blocked(soap.G(), start, end - start)
  {
    hide TableOk, Sound, Visited, Blocked, BlockedBy, Thread, Listing, Meets;
    ghost var done: set<string> := {};
    BlockedBySome(soap.G(), start, end - start);
    TableSize(soap.iht, soap.ids);
    VisitedNone(soap.iht);
    var i := 0;
    while i < SOAP_IDHASH
      invariant 0 <= i <= SOAP_IDHASH == |soap.iht| && Visited(soap.iht, i, 0, done)
      invariant forall id :: id in done ==> !BlockedBy(soap.G(), id, start, end - start)
    {
      var j := 0;
      while j < |soap.iht[i]|
        invariant j <= |soap.iht[i]| && Visited(soap.iht, i, j, done)
        invariant forall id :: id in done ==> !BlockedBy(soap.G(), id, start, end - start)
      {
        ghost var id := soap.iht[i][j].id;
        TableEntry(soap.iht, soap.ids, i, j);
        SoundKeys(soap.G());
        SlotChain(soap.G(), id);
        ListChain(soap.G(), id);
        BlockedByChains(soap.G(), id, start, end - start);
        b := ChainMeets(soap, soap.iht[i][j].copy, start, end, Ats(soap.tokens, soap.pend[id].copies));
        if b {
          return;
        }
        b := ListMeets(soap.iht[i][j].flist, start, end, Ats(soap.tokens, soap.pend[id].lists));
        if b {
          return;
        }
        VisitedStep(soap.iht, i, j, done);
        done := done + {id};
        j := j + 1;
      }
      VisitedBucket(soap.iht, i, done);
      i := i + 1;
    }
    VisitedAll(soap.iht, soap.ids, done);
    b := false;
  }

  // ---------- copying ----------

  /** The copy of n words between objects that do not overlap. */
  method Memcpy(soap: Soap, to: nat, from: nat, n: nat)
    requires forall x: nat :: Within(x, to, n) ==> x in soap.mem
    requires forall x: nat :: Within(x, from, n) ==> x in soap.mem && !Within(x, to, n)
    modifies soap`mem
    ensures Pasted(old(soap.mem), soap.mem, from, n, to)
  {
    ghost var m := soap.mem;
    var k := 0;
    while k < n
      invariant 0 <= k <= n && soap.mem.Keys == m.Keys
      invariant forall x: nat :: x < k ==> SameWord(m, from, soap.mem, to, x)
      invariant forall a: nat {:trigger soap.mem[a]} :: a in m && !Within(a, to, k) ==> soap.mem[a] == m[a]
      modifies soap`mem
    {
      assert Within(to + k, to, n) && Within(from + k, from, n);
      assert !Within(from + k, to, k);
      ghost var was := soap.mem;
      soap.mem := soap.mem[to + k := soap.mem[from + k]];
      forall x: nat | x < k + 1 ensures SameWord(m, from, soap.mem, to, x) {
        if x < k {
          assert SameWord(m, from, was, to, x);
        }
      }
      k := k + 1;
    }
  }

  /** The state of the copying: an object with an id that is free to copy. */
  ghost predicate Copying(g0: Graph, g: Graph, id: string) {
    && Sound(g) && Layout(g) && Progressed(g0, g)
    && id in g.ids && g.ids[id].ptr != 0 && !Blocked(g, g.ids[id].ptr, g.ids[id].size)
  }

  /** Where the head of a chain waits, and that a copy can go there. */
  lemma HeadPlace(g0: Graph, g: Graph, id: string, k: Kind)
    requires Copying(g0, g, id) && k != Slot
    requires if k == Chained then g.ids[id].copy != 0 else g.ids[id].flist != []
    ensures id in g.pend && |Of(g.pend[id], k)| > 0
    ensures var t := Head(g, id, k);
            && Waits(g, t) && g.tokens[t].id == id && g.tokens[t].at in g.mem && OwnPlace(g, t)
            && (k == Chained ==> g.ids[id].copy == g.tokens[t].at)
            && (k == Listed ==> g.ids[id].flist[|g.ids[id].flist| - 1].ptr == g.tokens[t].at)
            && (forall x: nat :: Within(x, g.tokens[t].at, g.ids[id].size) ==> x in g.mem)
            && (forall x: nat ::
               Within(x, g.ids[id].ptr, g.ids[id].size) ==> x in g.mem && !Within(x, g.tokens[t].at, g.ids[id].size))
  {
    HeadOf(g, id, k);
    var t := Head(g, id, k);
    assert OwnPlace(g, t);
    forall x: nat | Within(x, g.ids[id].ptr, g.ids[id].size)
      ensures x in g.mem && !Within(x, g.tokens[t].at, g.ids[id].size)
    {
      PlaceOutside(g, t, id, x);
    }
  }

  lemma PopStep(g0: Graph, g: Graph, id: string, k: Kind, mem: map<nat, nat>)
    requires Copying(g0, g, id) && k != Slot
    requires if k == Chained then g.ids[id].copy != 0 else g.ids[id].flist != []
    requires id in g.pend && |Of(g.pend[id], k)| > 0 && Head(g, id, k) < |g.tokens|
        && g.tokens[Head(g, id, k)].at in g.mem
    requires Pasted(g.mem, mem, g.ids[id].ptr, g.ids[id].size, g.tokens[Head(g, id, k)].at)
    ensures var h := Popped(g, id, k, mem);
            Copying(g0, h, id) && Backlog(h.tokens) < Backlog(g.tokens)
  {
    HeadPlace(g0, g, id, k);
    PopSound(g, id, k, mem);
    PopProgress(g0, g, id, k, mem);
    hide Sound, Layout, Progressed, OwnPlace, Blocked, Pasted;
    FewerWaiting(g.tokens, Head(g, id, k));
  }

  lemma FewerWaiting(tokens: seq<Token>, t: nat)
    requires t < |tokens| && tokens[t].fate == Pending && tokens[t].kind != Slot
    ensures Backlog(tokens[t := tokens[t].(fate := Copied)]) < Backlog(tokens)
  {
    Smaller(WaitSet(tokens[t := tokens[t].(fate := Copied)]), WaitSet(tokens), t);
  }

  /** Serves a chain of copies, whose head was taken out of the entry. */
  method CopyChain(soap: Soap, head: nat, from: nat, n: nat, ghost g0: Graph, ghost g: Graph,
      ghost id: string) returns (ghost h: Graph)
    requires Copying(g0, g, id) && soap.mem == g.mem
    requires head == g.ids[id].copy && from == g.ids[id].ptr && n == g.ids[id].size
    modifies soap`mem
    ensures Copying(g0, h, id) && h.mem == soap.mem && h.ids == g.ids[id := g.ids[id].(copy := 0)]
    ensures if head == 0 then h == g else Backlog(h.tokens) < Backlog(g.tokens)
  {
    hide Sound, Layout, Progressed, OwnPlace, Blocked, Backlog, Waits, Pasted;
    h := g;
    var q := head;
    assert g.ids[id].(copy := q) == g.ids[id];
    assert g.ids == g.ids[id := g.ids[id]];
    while q != 0
      invariant Copying(g0, h, id) && h.mem == soap.mem
      invariant h.ids == g.ids[id := g.ids[id].(copy := q)]
      invariant if head == 0 then h == g else (q == head && h == g) || Backlog(h.tokens) < Backlog(g.tokens)
      decreases Backlog(h.tokens)
      modifies soap`mem
    {
      HeadPlace(g0, h, id, Chained);
      WaitsToken(h, Head(h, id, Chained));
      var p := soap.mem[q];
      Memcpy(soap, q, from, n);
      PopStep(g0, h, id, Chained, soap.mem);
      h := Popped(h, id, Chained, soap.mem);
      q := p;
    }
  }

  lemma WaitsToken(g: Graph, t: nat)
    requires Waits(g, t)
    ensures t < |g.tokens|
  {
  }

  /** Serves the list of an entry, the entry being kept up to date. */
  method CopyList(soap: Soap, i: nat, j: nat, ghost g0: Graph) returns (flag: bool)
    requires soap.Valid() && i < |soap.iht| && j < |soap.iht[i]|
    requires Copying(g0, soap.G(), soap.iht[i][j].id)
    modifies soap
    ensures soap.Valid() && SameNames(old(soap.iht), soap.iht)
    ensures var e := old(soap.iht)[i][j];
            Copying(g0, soap.G(), e.id) && soap.ids == old(soap.ids)[e.id := e.(flist := [])]
    ensures flag == (old(soap.iht)[i][j].flist != [])
    ensures if flag then Backlog(soap.tokens) < old(Backlog(soap.tokens))
        else soap.G() == old(soap.G()) && soap.iht == old(soap.iht)
  {
    hide TableOk, Sound, Layout, Progressed, OwnPlace, Blocked, Backlog, Waits, Pasted, SameNames;
    flag := false;
    ghost var e := soap.iht[i][j];
    TableEntry(soap.iht, soap.ids, i, j);
    NamesSelf(soap.iht);
    assert soap.ids == soap.ids[e.id := e];
    while soap.iht[i][j].flist != []
      invariant soap.Valid() && SameNames(old(soap.iht), soap.iht)
      invariant i < |soap.iht| && j < |soap.iht[i]| && soap.iht[i][j] == e.(flist := soap.iht[i][j].flist)
      invariant Copying(g0, soap.G(), e.id)
      invariant soap.ids == old(soap.ids)[e.id := soap.iht[i][j]]
      invariant if flag then Backlog(soap.tokens) < old(Backlog(soap.tokens)) && e.flist != []
          else soap.G() == old(soap.G()) && soap.iht == old(soap.iht)
      decreases Backlog(soap.tokens)
      modifies soap
    {
      ghost var g := soap.G();
      HeadPlace(g0, g, e.id, Listed);
      WaitsToken(g, Head(g, e.id, Listed));
      var fp := soap.iht[i][j].flist[|soap.iht[i][j].flist| - 1];
      Memcpy(soap, fp.ptr, soap.iht[i][j].ptr, soap.iht[i][j].size);
      PopStep(g0, g, e.id, Listed, soap.mem);
      ghost var h := Popped(g, e.id, Listed, soap.mem);
      ghost var iht := soap.iht;
      soap.SetAt(i, j, soap.iht[i][j].(flist := soap.iht[i][j].flist[..|soap.iht[i][j].flist| - 1]));
      soap.pend, soap.tokens := h.pend, h.tokens;
      NamesTrans(old(soap.iht), iht, soap.iht);
      assert soap.G() == h;
      flag := true;
    }
  }

  lemma NamesSelf(iht: seq<seq<Ilist>>)
    ensures SameNames(iht, iht)
  {
  }

  /** One entry of a round: its copies are made when the object is known and
      nothing inside it waits. */
  method CopyEntry(soap: Soap, i: nat, j: nat, ghost g0: Graph) returns (flag: bool)
    requires soap.Valid() && i < |soap.iht| && j < |soap.iht[i]|
    requires Layout(soap.G()) && Progressed(g0, soap.G())
    modifies soap
    ensures soap.Valid() && SameNames(old(soap.iht), soap.iht)
    ensures Layout(soap.G()) && Progressed(g0, soap.G())
    ensures flag ==> Backlog(soap.tokens) < old(Backlog(soap.tokens))
    ensures !flag ==> soap.G() == old(soap.G()) && soap.iht == old(soap.iht) && Rested(soap.G(), soap.iht[i][j])
  {
    hide TableOk, Sound, Layout, Progressed, Blocked, Backlog, SameNames;
    var e := soap.iht[i][j];
    TableEntry(soap.iht, soap.ids, i, j);
    NamesSelf(soap.iht);
    flag := false;
    if e.ptr != 0 {
      var blocked := HasCopies(soap, e.ptr, e.ptr + e.size);
      if !blocked {
        if e.copy != 0 {
          ghost var g := soap.G();
          soap.SetAt(i, j, e.(copy := 0));
          ghost var h := CopyChain(soap, e.copy, e.ptr, e.size, g0, g, e.id);
          soap.pend, soap.tokens := h.pend, h.tokens;
          assert soap.G() == h;
          flag := true;
        }
        ghost var iht := soap.iht;
        ghost var was := soap.G();
        assert Copying(g0, soap.G(), e.id);
        NamesEntry(old(soap.iht), iht, i, j);
        var listed := CopyList(soap, i, j, g0);
        NamesTrans(old(soap.iht), iht, soap.iht);
        flag := flag || listed;
      }
    }
  }

  lemma NamesEntry(a: seq<seq<Ilist>>, b: seq<seq<Ilist>>, i: nat, j: nat)
    requires SameNames(a, b) && i < |a| && j < |a[i]|
    ensures i < |b| && j < |b[i]| && b[i][j].id == a[i][j].id
  {
  }

  /** Nothing is left to do for an entry. */
  ghost predicate Rested(g: Graph, e: Ilist) {
    e.ptr == 0 || Blocked(g, e.ptr, e.size) || (e.copy == 0 && e.flist == [])
  }

  /** One round over the table. It copies nothing only when nothing is left
      that can be copied. */
  method CopyRound(soap: Soap, ghost g0: Graph) returns (flag: bool)
    requires soap.Valid() && Layout(soap.G()) && Progressed(g0, soap.G())
    modifies soap
    ensures soap.Valid() && Layout(soap.G()) && Progressed(g0, soap.G())
    ensures flag ==> Backlog(soap.tokens) < old(Backlog(soap.tokens))
    ensures !flag ==> soap.G() == old(soap.G()) && forall id :: id in soap.ids ==> Rested(soap.G(), soap.ids[id])
  {
    hide TableOk, Sound, Layout, Progressed, Backlog, SameNames, Visited, Rested;
    flag := false;
    ghost var done: set<string> := {};
    TableSize(soap.iht, soap.ids);
    VisitedNone(soap.iht);
    var i := 0;
    while i < SOAP_IDHASH
      invariant 0 <= i <= SOAP_IDHASH && SOAP_IDHASH == |soap.iht| && soap.Valid()
      invariant Layout(soap.G()) && Progressed(g0, soap.G()) && Visited(soap.iht, i, 0, done)
      invariant if flag then Backlog(soap.tokens) < old(Backlog(soap.tokens)) else soap.G() == old(soap.G())
      invariant !flag ==> forall id :: id in done && id in soap.ids ==> Rested(soap.G(), soap.ids[id])
    {
      var copied;
      copied, done := CopyBucket(soap, i, g0, done, flag);
      flag := flag || copied;
      i := i + 1;
    }
    VisitedAll(soap.iht, soap.ids, done);
  }

  method CopyBucket(soap: Soap, i: nat, ghost g0: Graph, ghost before: set<string>,
      ghost moved: bool) returns (flag: bool, ghost done: set<string>)
    requires soap.Valid() && Layout(soap.G()) && Progressed(g0, soap.G()) && i < |soap.iht|
        && Visited(soap.iht, i, 0, before)
    requires !moved ==> forall id :: id in before && id in soap.ids ==> Rested(soap.G(), soap.ids[id])
    modifies soap
    ensures soap.Valid() && Layout(soap.G()) && Progressed(g0, soap.G()) && |soap.iht| == |old(soap.iht)|
    ensures Visited(soap.iht, i + 1, 0, done)
    ensures if flag then Backlog(soap.tokens) < old(Backlog(soap.tokens)) else soap.G() == old(soap.G())
    ensures !flag && !moved ==> forall id :: id in done && id in soap.ids ==> Rested(soap.G(), soap.ids[id])
  {
    hide TableOk, Sound, Layout, Progressed, Backlog, SameNames, Visited, Rested;
    done := before;
    flag := false;
    var j := 0;
    while j < |soap.iht[i]|
      invariant soap.Valid() && Layout(soap.G()) && Progressed(g0, soap.G())
      invariant |soap.iht| == |old(soap.iht)| && i < |soap.iht| && j <= |soap.iht[i]| && Visited(soap.iht, i, j, done)
      invariant if flag then Backlog(soap.tokens) < old(Backlog(soap.tokens)) else soap.G() == old(soap.G())
      invariant !flag && !moved ==> forall id :: id in done && id in soap.ids ==> Rested(soap.G(), soap.ids[id])
      decreases |soap.iht[i]| - j
    {
      ghost var iht := soap.iht;
      ghost var id := soap.iht[i][j].id;
      TableEntry(soap.iht, soap.ids, i, j);
      VisitedStep(iht, i, j, done);
      var copied := CopyEntry(soap, i, j, g0);
      NamesAt(iht, soap.iht, i);
      VisitedNames(iht, soap.iht, i, j + 1, done + {id});
      flag := flag || copied;
      done := done + {id};
      j := j + 1;
    }
    VisitedBucket(soap.iht, i, done);
  }

  /** Rounds are made until one copies nothing; every other one leaves fewer
      copies to be made. */
  method CopyAll(soap: Soap)
    requires soap.Valid() && Layout(soap.G())
    modifies soap
    ensures soap.Valid() && Layout(soap.G()) && Progressed(old(soap.G()), soap.G())
    ensures forall id :: id in soap.ids ==> Rested(soap.G(), soap.ids[id])
  {
    hide TableOk, Sound, Layout, Progressed, Rested, Backlog;
    ghost var g0 := soap.G();
    NoProgress(g0);
    var flag := true;
    while flag
      invariant soap.Valid() && Layout(soap.G()) && Progressed(g0, soap.G())
      invariant !flag ==> forall id :: id in soap.ids ==> Rested(soap.G(), soap.ids[id])
      decreases Backlog(soap.tokens), flag
      modifies soap
    {
      flag := CopyRound(soap, g0);
    }
  }

  lemma NoProgress(g: Graph)
    ensures Progressed(g, g)
  {
    forall t: nat | t < |g.tokens| ensures TokenProgressed(g, g, t) {
    }
  }

  // ---------- the resolution as a whole ----------

  ghost predicate WaitsSlot(g: Graph, t: nat, id: string) {
    t < |g.tokens| && g.tokens[t] == Token(id, g.tokens[t].at, Slot, Pending)
  }

  /** The slot's word is still a link of its chain: the address of the slot that
      waited before it for the same id, and null for the first. */
  ghost predicate LinkWord(g: Graph, t: nat)
    requires t < |g.tokens|
  {
    var k := g.tokens[t];
    && k.at in g.mem
    && ((g.mem[k.at] == 0 && forall u: nat :: u < t ==> !WaitsSlot(g, u, k.id))
        || (exists u: nat :: u < t && WaitsSlot(g, u, k.id) && g.mem[k.at] == g.tokens[u].at
              && forall v: nat :: u < v < t ==> !WaitsSlot(g, v, k.id)))
  }

  /** Where a waiting slot stands in the chain of its id. */
  lemma InChain(g: Graph, t: nat, id: string) returns (j: nat)
    requires Sound(g) && WaitsSlot(g, t, id)
    ensures id in g.ids && id in g.pend && j < |g.pend[id].slots| && g.pend[id].slots[j] == t
  {
    assert TokenOk(g, t);
    assert t in Of(g.pend[id], Slot);
    j :| j < |g.pend[id].slots| && g.pend[id].slots[j] == t;
  }

  lemma ChainOf(g: Graph, id: string)
    requires Sound(g) && id in g.ids
    ensures id in g.pend
    ensures Waiting(g.tokens, id, Slot, g.pend[id].slots)
        && Thread(g.mem, g.ids[id].link, Ats(g.tokens, g.pend[id].slots))
  {
    assert EntryOk(g.mem, g.tokens, id, g.ids[id], g.pend[id]);
  }

  lemma StillLinked(g: Graph, t: nat)
    requires Sound(g) && t < |g.tokens| && WaitsSlot(g, t, g.tokens[t].id)
    ensures LinkWord(g, t)
  {
    hide Sound;
    var id := g.tokens[t].id;
    var j := InChain(g, t, id);
    ChainOf(g, id);
    var c := g.pend[id].slots;
    AtsAt(g.tokens, c, j);
    assert Linked(g.mem, Ats(g.tokens, c), j);
    forall v: nat | v < t && WaitsSlot(g, v, id) ensures j > 0 && v <= c[j - 1] {
      var i := InChain(g, v, id);
    }
    if j > 0 {
      AtsAt(g.tokens, c, j - 1);
      assert WaitsSlot(g, c[j - 1], id);
    }
  }

  /** A slot that waited holds the address entered for its id. The id may be
      missing only when it is not local to the message; the slot is then left
      with its link. */
  ghost predicate SlotResolved(g0: Graph, g: Graph, t: nat)
    requires t < |g0.tokens|
  {
    var k := g0.tokens[t];
    && k.id in g.ids && k.id in g0.ids && g.ids[k.id].ptr == g0.ids[k.id].ptr
    && (if g.ids[k.id].ptr != 0 then k.at in g.mem && g.mem[k.at] == g.ids[k.id].ptr
        else k.id != "" && k.id[0] != '#' && t < |g.tokens| && g.tokens[t] == k && LinkWord(g, t))
  }

  /** The ids with their objects, and the references with their places, stay;
      nothing starts to wait. */
  ghost predicate TableUnmoved(g0: Graph, g: Graph) {
    && g.ids.Keys == g0.ids.Keys && |g.tokens| == |g0.tokens|
    && (forall id {:trigger g.ids[id]} :: id in g0.ids ==> g.ids[id].ptr == g0.ids[id].ptr)
    && (forall t: nat {:trigger g.tokens[t]} :: t < |g0.tokens| ==>
          && g.tokens[t].id == g0.tokens[t].id && g.tokens[t].at == g0.tokens[t].at
          && g.tokens[t].kind == g0.tokens[t].kind
          && (g.tokens[t].fate == Pending ==> g0.tokens[t].fate == Pending))
  }

  lemma AllUnmoved(g0: Graph, g1: Graph, g: Graph)
    requires PatchedFor(g0, g1, g0.ids.Keys) && Progressed(g1, g)
    ensures TableUnmoved(g0, g)
  {
    forall t: nat | t < |g0.tokens|
      ensures g.tokens[t].id == g0.tokens[t].id && g.tokens[t].at == g0.tokens[t].at
      ensures g.tokens[t].kind == g0.tokens[t].kind
      ensures g.tokens[t].fate == Pending ==> g0.tokens[t].fate == Pending
    {
      assert g1.tokens[t] == PatchedToken(g0, t, g0.ids.Keys);
      assert TokenProgressed(g1, g, t);
    }
    forall id | id in g0.ids ensures g.ids[id].ptr == g0.ids[id].ptr {
      assert g1.ids[id].ptr == g0.ids[id].ptr;
    }
  }

  /** A place that waited for a copy has it, unless its id is missing or
      something inside the object still waits. */
  ghost predicate CopyResolved(g0: Graph, g: Graph, t: nat)
    requires t < |g0.tokens|
  {
    var k := g0.tokens[t];
    && k.id in g.ids && t < |g.tokens| && g.tokens[t].id == k.id && g.tokens[t].at == k.at
    && (if g.ids[k.id].ptr != 0 && !Blocked(g, g.ids[k.id].ptr, g.ids[k.id].size)
        then g.tokens[t].fate == Copied && Delivered(g, t)
        else g.ids[k.id].ptr != 0 || (k.id != "" && k.id[0] != '#'))
  }

  /** After a successful resolution every slot that was registered before its
      id was entered holds the address of the id, the slots that received an
      address at once still hold that one, and the copies are made. A slot whose
      id was never entered keeps a link. */
  method Resolve(soap: Soap) returns (status: Status)
    requires soap.Valid() && Layout(soap.G())
    modifies soap
    ensures soap.Valid()
    ensures status == if Complete(old(soap.G())) then SOAP_OK else SOAP_MISSING_ID
    ensures status != SOAP_OK ==> Missing(old(soap.G()), soap.id)
    ensures status == SOAP_OK ==> TableUnmoved(old(soap.G()), soap.G())
    ensures status == SOAP_OK ==> forall t: nat {:trigger old(soap.tokens)[t]} :: t < |old(soap.tokens)| ==>
              match old(soap.tokens)[t].fate
              case Pending =>
                if old(soap.tokens)[t].kind == Slot then SlotResolved(old(soap.G()), soap.G(), t)
                else CopyResolved(old(soap.G()), soap.G(), t)
              case Holds(v) => old(soap.tokens)[t].at in soap.mem && soap.mem[old(soap.tokens)[t].at] == v
              case Copied => true
  {
    hide TableOk, Sound, Layout, Progressed, Rested, Backlog, TableUnmoved;
    ghost var g0 := soap.G();
    status := PatchAll(soap);
    if status != SOAP_OK {
      return;
    }
    ghost var g1 := soap.G();
    LayoutPatched(g0, g1, g0.ids.Keys);
    CopyAll(soap);
    AllUnmoved(g0, g1, soap.G());
    forall t: nat | t < |g0.tokens| ensures
              match g0.tokens[t].fate
              case Pending =>
                if g0.tokens[t].kind == Slot then SlotResolved(g0, soap.G(), t) else CopyResolved(g0, soap.G(), t)
              case Holds(v) => g0.tokens[t].at in soap.mem && soap.mem[g0.tokens[t].at] == v
              case Copied => true {
      TokenResolved(g0, g1, soap.G(), t);
    }
  }

  lemma LayoutPatched(g0: Graph, g: Graph, done: set<string>)
    requires Layout(g0) && PatchedFor(g0, g, done)
    ensures Layout(g)
  {
    forall t: nat | t < |g.tokens|
      ensures Size(g, t) == Size(g0, t) && g.tokens[t].at == g0.tokens[t].at && g.tokens[t].kind == g0.tokens[t].kind
          && (Waits(g, t) ==> Waits(g0, t))
    {
      assert g.tokens[t] == PatchedToken(g0, t, done);
    }
    forall t: nat | Waits(g, t) ensures OwnPlace(g, t) {
      assert OwnPlace(g0, t);
    }
  }

  lemma TokenResolved(g0: Graph, g1: Graph, g: Graph, t: nat)
    requires Sound(g0) && Complete(g0) && PatchedFor(g0, g1, g0.ids.Keys) && Sound(g) && Progressed(g1, g)
        && t < |g0.tokens|
    requires forall id :: id in g.ids ==> Rested(g, g.ids[id])
    ensures match g0.tokens[t].fate
            case Pending => if g0.tokens[t].kind == Slot then SlotResolved(g0, g, t) else CopyResolved(g0, g, t)
            case Holds(v) => g0.tokens[t].at in g.mem && g.mem[g0.tokens[t].at] == v
            case Copied => true
  {
    var k := g0.tokens[t];
    assert TokenOk(g0, t);
    assert g1.tokens[t] == PatchedToken(g0, t, g0.ids.Keys);
    assert TokenProgressed(g1, g, t) && TokenOk(g, t);
    assert g.ids[k.id].ptr == g0.ids[k.id].ptr;
    if k.fate == Pending && k.kind == Slot && g.ids[k.id].ptr == 0 {
      StillLinked(g, t);
    }
    if k.fate == Pending && k.kind != Slot && g.tokens[t].fate == Pending {
      assert Rested(g, g.ids[k.id]);
      StillPending(g, t);
    }
  }

  /** What still waits is on a chain of its entry. */
  lemma StillPending(g: Graph, t: nat)
    requires Sound(g) && Waits(g, t)
    ensures var id := g.tokens[t].id; id in g.ids && (g.ids[id].copy != 0 || g.ids[id].flist != [])
  {
    assert TokenOk(g, t);
    HeadOf(g, g.tokens[t].id, g.tokens[t].kind);
  }
}
