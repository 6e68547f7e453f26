/** The update of every pointer that the id table knows of, before the words
    of a block are copied to their new place. */
module SoapUpdate {
  import opened SoapGraph
  import opened SoapRefs
  import opened SoapResolve

  /** Every word of the chain follows the move, and nothing else changes. */
  ghost predicate Shifted(mem: map<nat, nat>, mem': map<nat, nat>, pl: seq<nat>, start: nat, n: nat, to: nat) {
    && mem'.Keys == mem.Keys
    && (forall a: nat {:trigger mem'[a]} ::
       a in mem ==> mem'[a] == if a in pl then Moved(mem[a], start, n, to) else mem[a])
  }

  method MoveChain(soap: Soap, head: nat, start: nat, end: nat, p1: nat, ghost pl: seq<nat>) returns (head': nat)
    requires Thread(soap.mem, head, pl) && AllApart(pl) && 0 < start <= end
    modifies soap`mem
    ensures head' == Moved(head, start, end - start, p1)
    ensures Shifted(old(soap.mem), soap.mem, pl, start, end - start, p1)
  {
    ghost var m := soap.mem;
    ghost var k: nat := |pl|;
    var p := head;
    head' := if p >= start && p < end then p - start + p1 else p;
    var q := p;
    assert k > 0 ==> Linked(m, pl, k - 1);
    assert pl[k..] == [];
    while q != 0
      invariant k <= |pl| && q == Under(pl, k) && (k > 0 ==> q != 0)
      invariant Shifted(m, soap.mem, pl[k..], start, end - start, p1)
      decreases k
      modifies soap`mem
    {
      k := k - 1;
      assert Linked(m, pl, k) && q == pl[k];
      assert q !in pl[k + 1..];
      assert pl[k..] == [q] + pl[k + 1..];
      p := soap.mem[q];
      if p != 0 && p >= start && p < end {
        soap.mem := soap.mem[q := p - start + p1];
      }
      q := p;
      assert k > 0 ==> Linked(m, pl, k - 1);
    }
    assert pl[0..] == pl;
  }

  method MoveList(flist: seq<Flist>, start: nat, end: nat, p1: nat) returns (r: seq<Flist>)
    requires start <= end
    ensures r == MovedFlist(flist, start, end - start, p1)
  {
    r := flist;
    var k := |flist|;
    while k != 0
      invariant 0 <= k <= |flist| == |r|
      invariant forall j: nat ::
          j < |flist| ==>
              r[j] == if j < k then flist[j] else flist[j].(ptr := Moved(flist[j].ptr, start, end - start, p1))
    {
      k := k - 1;
      if r[k].ptr >= start && r[k].ptr < end {
        r := r[k := r[k].(ptr := r[k].ptr - start + p1)];
      }
    }
  }

  /** The words of the chains of the ids in done. */
  ghost predicate ChainWord(g: Graph, a: nat, done: set<string>) {
    exists t: nat :: t < |g.tokens| && LinkToken(g, t) && g.tokens[t].id in done && g.tokens[t].at == a
  }

  ghost predicate LinkToken(g: Graph, t: nat)
    requires t < |g.tokens|
  {
    g.tokens[t].fate == Pending && g.tokens[t].kind != Listed
  }

  ghost predicate Updating(g: Graph, mem: map<nat, nat>, ids: map<string, Ilist>, done: set<string>, start: nat, n: nat,
      to: nat) {
    && mem.Keys == g.mem.Keys && ids.Keys == g.ids.Keys
    && (forall id {:trigger ids[id]} ::
       id in ids ==> ids[id] == if id in done then MovedEntry(g.ids[id], start, n, to) else g.ids[id])
    && (forall a: nat {:trigger mem[a]} ::
       a in mem ==> mem[a] == if ChainWord(g, a, done) then Moved(g.mem[a], start, n, to) else g.mem[a])
  }

  lemma UpdateNone(g: Graph, start: nat, n: nat, to: nat)
    ensures Updating(g, g.mem, g.ids, {}, start, n, to)
  {
    assert forall a: nat :: !ChainWord(g, a, {});
  }

  /** A word is on a chain of the entry exactly when a linked token of the id
      is registered there. */
  lemma ChainWordOf(g: Graph, id: string, a: nat)
    requires Sound(g) && id in g.ids
    ensures ChainWord(g, a, {id}) <==> a in Ats(g.tokens, g.pend[id].slots) || a in Ats(g.tokens, g.pend[id].copies)
  {
    if ChainWord(g, a, {id}) {
      var t: nat :| t < |g.tokens| && LinkToken(g, t) && g.tokens[t].id in {id} && g.tokens[t].at == a;
      assert TokenOk(g, t);
      InChain(g, id, g.tokens[t].kind, t);
    }
    OnChain(g, id, Slot, a);
    OnChain(g, id, Chained, a);
  }

  lemma InChain(g: Graph, id: string, k: Kind, t: nat)
    requires id in g.pend && t in Of(g.pend[id], k)
    ensures At(g.tokens, t) in Ats(g.tokens, Of(g.pend[id], k))
  {
    var c := Of(g.pend[id], k);
    var j: nat :| j < |c| && c[j] == t;
    AtsAt(g.tokens, c, j);
    assert Ats(g.tokens, c)[j] == At(g.tokens, t);
  }

  lemma OnChain(g: Graph, id: string, k: Kind, a: nat)
    requires Sound(g) && id in g.ids && k != Listed
    ensures a in Ats(g.tokens, Of(g.pend[id], k)) ==> ChainWord(g, a, {id})
  {
    var c := Of(g.pend[id], k);
    if a in Ats(g.tokens, c) {
      var j: nat :| j < |c| && Ats(g.tokens, c)[j] == a;
      AtsAt(g.tokens, c, j);
      WaitingToken(g, id, k, c[j]);
      assert LinkToken(g, c[j]);
    }
  }

  /** Chains of different ids, and the two chains of one, have no word in
      common. */
  lemma ChainWordsApart(g: Graph, a: nat, done: set<string>, id: string)
    requires Apart(g.tokens) && id !in done
    ensures !(ChainWord(g, a, {id}) && ChainWord(g, a, done))
    ensures ChainWord(g, a, done + {id}) <==> ChainWord(g, a, {id}) || ChainWord(g, a, done)
  {
    if ChainWord(g, a, {id}) {
      var t: nat :| t < |g.tokens| && LinkToken(g, t) && g.tokens[t].id in {id} && g.tokens[t].at == a;
      forall u: nat | u < |g.tokens| && LinkToken(g, u) && g.tokens[u].id in done ensures g.tokens[u].at != a {
        assert t < u || u < t;
      }
    }
  }

  lemma SlotsAndCopiesApart(g: Graph, id: string, a: nat)
    requires Sound(g) && id in g.ids
    ensures a in Ats(g.tokens, g.pend[id].copies) ==> a !in Ats(g.tokens, g.pend[id].slots)
  {
    var c := g.pend[id].copies;
    forall j: nat | j < |c| ensures Ats(g.tokens, c)[j] !in Ats(g.tokens, g.pend[id].slots) {
      AtsAt(g.tokens, c, j);
      WaitingToken(g, id, Chained, c[j]);
      if c[j] in g.pend[id].slots {
        WaitingToken(g, id, Slot, c[j]);
      }
      OffChain(g, id, Slot, c[j]);
    }
  }

  /** Before its turn an entry's chains are as they were. */
  lemma UntouchedChains(g: Graph, mem: map<nat, nat>, ids: map<string, Ilist>, done: set<string>, id: string,
      start: nat, n: nat, to: nat)
    requires Sound(g) && Updating(g, mem, ids, done, start, n, to) && id in ids && id !in done
    ensures ids[id] == g.ids[id]
    ensures Thread(mem, g.ids[id].link, Ats(g.tokens, g.pend[id].slots)) && AllApart(Ats(g.tokens, g.pend[id].slots))
    ensures Thread(mem, g.ids[id].copy, Ats(g.tokens, g.pend[id].copies)) && AllApart(Ats(g.tokens, g.pend[id].copies))
  {
    SlotChain(g, id);
    UntouchedThread(g, mem, ids, done, id, Slot, g.ids[id].link, start, n, to);
    UntouchedThread(g, mem, ids, done, id, Chained, g.ids[id].copy, start, n, to);
  }

  lemma UntouchedThread(g: Graph, mem: map<nat, nat>, ids: map<string, Ilist>, done: set<string>, id: string, k: Kind,
      head: nat, start: nat, n: nat, to: nat)
    requires Sound(g) && Updating(g, mem, ids, done, start, n, to) && id in g.ids && id !in done && k != Listed
    requires Thread(g.mem, head, Ats(g.tokens, Of(g.pend[id], k)))
    ensures Thread(mem, head, Ats(g.tokens, Of(g.pend[id], k)))
  {
    var pl := Ats(g.tokens, Of(g.pend[id], k));
    forall j: nat | j < |pl| ensures pl[j] in g.mem && pl[j] in mem && mem[pl[j]] == g.mem[pl[j]] {
      assert Linked(g.mem, pl, j);
      OnChain(g, id, k, pl[j]);
      ChainWordsApart(g, pl[j], done, id);
    }
    ThreadFrame(g.mem, mem, head, pl);
  }

  lemma UpdateOne(g: Graph, mem: map<nat, nat>, ids: map<string, Ilist>, done: set<string>, id: string, start: nat,
      n: nat, to: nat,
                  mem1: map<nat, nat>, mem2: map<nat, nat>)
    requires Sound(g) && Updating(g, mem, ids, done, start, n, to) && id in ids && id !in done
    requires Shifted(mem, mem1, Ats(g.tokens, g.pend[id].slots), start, n, to)
    requires Shifted(mem1, mem2, Ats(g.tokens, g.pend[id].copies), start, n, to)
    ensures Updating(g, mem2, ids[id := MovedEntry(g.ids[id], start, n, to)], done + {id}, start, n, to)
  {
    hide Sound;
    forall a: nat | a in mem2
      ensures mem2[a] == if ChainWord(g, a, done + {id}) then Moved(g.mem[a], start, n, to) else g.mem[a]
    {
      SoundKeys(g);
      ChainWordOf(g, id, a);
      SoundApart(g);
      ChainWordsApart(g, a, done, id);
      SlotsAndCopiesApart(g, id, a);
      hide ChainWord;
      assert mem1[a] == if a in Ats(g.tokens, g.pend[id].slots) then Moved(mem[a], start, n, to) else mem[a];
    }
  }

  lemma SoundApart(g: Graph)
    requires Sound(g)
    ensures Apart(g.tokens)
  {
  }

  /** The id stands before place j of bucket i. */
  ghost predicate Before(iht: seq<seq<Ilist>>, i: nat, j: nat, id: string) {
    exists x: nat, y: nat {:trigger iht[x][y]} ::
        x < |iht| && y < |iht[x]| && (x < i || (x == i && y < j)) && iht[x][y].id == id
  }

  ghost predicate OnlyVisited(iht: seq<seq<Ilist>>, i: nat, j: nat, done: set<string>) {
    forall id :: id in done ==> Before(iht, i, j, id)
  }

  lemma NotYetVisited(iht: seq<seq<Ilist>>, ids: map<string, Ilist>, i: nat, j: nat, done: set<string>)
    requires TableOk(iht, ids) && OnlyVisited(iht, i, j, done) && i < |iht| && j < |iht[i]|
    ensures iht[i][j].id !in done
    ensures OnlyVisited(iht, i, j + 1, done + {iht[i][j].id})
  {
    hide HashOf;
    var id := iht[i][j].id;
    forall x: nat, y: nat | x < |iht| && y < |iht[x]| && (x < i || (x == i && y < j)) ensures iht[x][y].id != id {
      assert Bucket(iht[x][y].id) == x && Bucket(iht[i][j].id) == i;
      if x == i {
        assert iht[i][y].id != iht[i][j].id;
      }
    }
    assert !Before(iht, i, j, id);
    assert Before(iht, i, j + 1, id) by { assert iht[i][j].id == id; }
    forall d | d in done ensures Before(iht, i, j + 1, d) {
      assert Before(iht, i, j, d);
    }
  }

  lemma OnlyVisitedNames(a: seq<seq<Ilist>>, b: seq<seq<Ilist>>, i: nat, j: nat, done: set<string>)
    requires SameNames(a, b) && OnlyVisited(a, i, j, done)
    ensures OnlyVisited(b, i, j, done)
  {
    forall id | id in done ensures Before(b, i, j, id) {
      assert Before(a, i, j, id);
      var x: nat, y: nat :| x < |a| && y < |a[x]| && (x < i || (x == i && y < j)) && a[x][y].id == id;
      assert b[x][y].id == id;
    }
  }

  lemma OnlyVisitedBucket(iht: seq<seq<Ilist>>, i: nat, done: set<string>)
    requires i < |iht| && OnlyVisited(iht, i, |iht[i]|, done)
    ensures OnlyVisited(iht, i + 1, 0, done)
  {
    forall id | id in done ensures Before(iht, i + 1, 0, id) {
      assert Before(iht, i, |iht[i]|, id);
    }
  }

  /** Moves the pointers of one entry and of the words chained from it. */
  method UpdateEntry(soap: Soap, i: nat, j: nat, start: nat, end: nat, p1: nat, ghost g: Graph, ghost done: set<string>)
    requires TableOk(soap.iht, soap.ids) && i < |soap.iht| && j < |soap.iht[i]| && 0 < start <= end && p1 > 0
    requires Sound(g) && Updating(g, soap.mem, soap.ids, done, start, end - start, p1) && soap.iht[i][j].id !in done
    modifies soap`mem, soap`iht, soap`ids
    ensures TableOk(soap.iht, soap.ids) && SameNames(old(soap.iht), soap.iht)
    ensures Updating(g, soap.mem, soap.ids, done + {old(soap.iht)[i][j].id}, start, end - start, p1)
  {
    hide TableOk, Sound, Updating, Shifted, SameNames;
    var e := soap.iht[i][j];
    ghost var mem := soap.mem;
    TableEntry(soap.iht, soap.ids, i, j);
    UpdatingKeys(g, soap.mem, soap.ids, done, start, end - start, p1);
    SoundKeys(g);
    UntouchedChains(g, soap.mem, soap.ids, done, e.id, start, end - start, p1);
    var ptr := if e.ptr != 0 && e.ptr >= start && e.ptr < end then e.ptr - start + p1 else e.ptr;
    var link := MoveChain(soap, e.link, start, end, p1, Ats(g.tokens, g.pend[e.id].slots));
    ghost var mem1 := soap.mem;
    ShiftedOther(g, mem, mem1, e.id, start, end - start, p1);
    var copy := MoveChain(soap, e.copy, start, end, p1, Ats(g.tokens, g.pend[e.id].copies));
    var flist := MoveList(e.flist, start, end, p1);
    soap.SetAt(i, j, e.(ptr := ptr, link := link, copy := copy, flist := flist));
    UpdateOne(g, mem, old(soap.ids), done, e.id, start, end - start, p1, mem1, soap.mem);
    assert MovedEntry(g.ids[e.id], start, end - start, p1) ==
        e.(ptr := ptr, link := link, copy := copy, flist := flist);
  }

  lemma UpdatingKeys(g: Graph, mem: map<nat, nat>, ids: map<string, Ilist>, done: set<string>, start: nat, n: nat,
      to: nat)
    requires Updating(g, mem, ids, done, start, n, to)
    ensures mem.Keys == g.mem.Keys && ids.Keys == g.ids.Keys
  {
  }

  /** The walk over the slots leaves the chain of copies alone. */
  lemma ShiftedOther(g: Graph, mem: map<nat, nat>, mem': map<nat, nat>, id: string, start: nat, n: nat, to: nat)
    requires Sound(g) && id in g.ids
    requires Shifted(mem, mem', Ats(g.tokens, g.pend[id].slots), start, n, to)
    requires Thread(mem, g.ids[id].copy, Ats(g.tokens, g.pend[id].copies))
    ensures Thread(mem', g.ids[id].copy, Ats(g.tokens, g.pend[id].copies))
  {
    var pl := Ats(g.tokens, g.pend[id].copies);
    forall j: nat | j < |pl| ensures pl[j] in mem && pl[j] in mem' && mem'[pl[j]] == mem[pl[j]] {
      assert Linked(mem, pl, j);
      SlotsAndCopiesApart(g, id, pl[j]);
    }
    ThreadFrame(mem, mem', g.ids[id].copy, pl);
  }

  /** Every pointer of the table, and every word on its chains, that points
      among the words from start to end is moved along with them. */
  method UpdatePtrs(soap: Soap, start: nat, end: nat, p1: nat)
    requires soap.Valid() && 0 < start <= end && p1 > 0
    modifies soap`mem, soap`iht, soap`ids
    ensures TableOk(soap.iht, soap.ids)
    ensures Updating(old(soap.G()), soap.mem, soap.ids, old(soap.ids).Keys, start, end - start, p1)
  {
    hide TableOk, Sound, Updating, SameNames, Visited, OnlyVisited;
    ghost var g := soap.G();
    ghost var done: set<string> := {};
    TableSize(soap.iht, soap.ids);
    VisitedNone(soap.iht);
    UpdateNone(g, start, end - start, p1);
    assert OnlyVisited(soap.iht, 0, 0, {}) by { NoneVisited(soap.iht); }
    var i := 0;
    while i < SOAP_IDHASH
      invariant 0 <= i <= SOAP_IDHASH && |soap.iht| == SOAP_IDHASH && TableOk(soap.iht, soap.ids)
      invariant Updating(g, soap.mem, soap.ids, done, start, end - start, p1)
      invariant Visited(soap.iht, i, 0, done) && OnlyVisited(soap.iht, i, 0, done) && done <= g.ids.Keys
      modifies soap`mem, soap`iht, soap`ids
    {
      var j := 0;
      while j < |soap.iht[i]|
        invariant |soap.iht| == SOAP_IDHASH && j <= |soap.iht[i]| && TableOk(soap.iht, soap.ids)
        invariant Updating(g, soap.mem, soap.ids, done, start, end - start, p1)
        invariant Visited(soap.iht, i, j, done) && OnlyVisited(soap.iht, i, j, done) && done <= g.ids.Keys
        decreases |soap.iht[i]| - j
        modifies soap`mem, soap`iht, soap`ids
      {
        ghost var iht: seq<seq<Ilist>> := soap.iht;
        ghost var id := iht[i][j].id;
        TableEntry(soap.iht, soap.ids, i, j);
        UpdatingKeys(g, soap.mem, soap.ids, done, start, end - start, p1);
        NotYetVisited(iht, soap.ids, i, j, done);
        VisitedStep(iht, i, j, done);
        UpdateEntry(soap, i, j, start, end, p1, g, done);
        done := done + {id};
        NamesAt(iht, soap.iht, i);
        VisitedNames(iht, soap.iht, i, j + 1, done);
        OnlyVisitedNames(iht, soap.iht, i, j + 1, done);
        j := j + 1;
      }
      VisitedBucket(soap.iht, i, done);
      OnlyVisitedBucket(soap.iht, i, done);
      i := i + 1;
    }
    VisitedAll(soap.iht, soap.ids, done);
    UpdatingKeys(g, soap.mem, soap.ids, done, start, end - start, p1);
    assert done == g.ids.Keys;
  }

  lemma NoneVisited(iht: seq<seq<Ilist>>)
    ensures OnlyVisited(iht, 0, 0, {})
  {
  }
}
