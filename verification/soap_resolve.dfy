/** The resolution of references at the end of a message: every chain of
    pointer slots is patched, and then rounds of copying are made until one
    of them copies nothing. */
module SoapResolve {
  import opened SoapGraph
  import opened SoapCopies
  import opened SoapRefs

  // ---------- patching the chains ----------

  ghost predicate AllApart(pl: seq<nat>) {
    forall i: nat, j: nat :: i < j < |pl| ==> pl[i] != pl[j]
  }

  lemma ChainApart(tokens: seq<Token>, id: string, kind: Kind, c: seq<nat>)
    requires Waiting(tokens, id, kind, c) && Apart(tokens)
    ensures AllApart(Ats(tokens, c))
  {
    forall i: nat, j: nat | i < j < |c| ensures Ats(tokens, c)[i] != Ats(tokens, c)[j] {
      AtsAt(tokens, c, i);
      AtsAt(tokens, c, j);
      assert c[i] < c[j];
    }
  }

  /** The chain of a known entry, ready to be walked. */
  lemma SlotChain(g: Graph, id: string)
    requires Sound(g) && id in g.ids
    ensures Thread(g.mem, g.ids[id].link, Ats(g.tokens, g.pend[id].slots)) && AllApart(Ats(g.tokens, g.pend[id].slots))
    ensures Thread(g.mem, g.ids[id].copy, Ats(g.tokens, g.pend[id].copies))
        && AllApart(Ats(g.tokens, g.pend[id].copies))
  {
    assert EntryOk(g.mem, g.tokens, id, g.ids[id], g.pend[id]);
    ChainApart(g.tokens, id, Slot, g.pend[id].slots);
    ChainApart(g.tokens, id, Chained, g.pend[id].copies);
  }

  /** Walks a chain and leaves r in every place of it. */
  method PatchChain(soap: Soap, head: nat, r: nat, ghost pl: seq<nat>)
    requires Thread(soap.mem, head, pl) && AllApart(pl)
    modifies soap`mem
    ensures Overwritten(old(soap.mem), soap.mem, pl, r)
  {
    ghost var m := soap.mem;
    var q := head;
    ghost var k: nat := |pl|;
    assert k > 0 ==> Linked(m, pl, k - 1);
    while q != 0
      invariant k <= |pl| && q == Under(pl, k) && (k > 0 ==> q != 0)
      invariant soap.mem.Keys == m.Keys
      invariant forall j: nat :: k <= j < |pl| ==> pl[j] in m && soap.mem[pl[j]] == r
      invariant forall a: nat {:trigger soap.mem[a]} :: a in m && a !in pl[k..] ==> soap.mem[a] == m[a]
      decreases k
      modifies soap`mem
    {
      k := k - 1;
      assert Linked(m, pl, k) && q == pl[k];
      assert pl[k..] == [q] + pl[k + 1..];
      var p := soap.mem[q];
      soap.mem := soap.mem[q := r];
      q := p;
      assert k > 0 ==> Linked(m, pl, k - 1);
    }
    assert pl[0..] == pl;
  }

  /** The chains of the ids in done were patched, provided that their ids have
      been entered. */
  ghost predicate PatchedFor(g0: Graph, g: Graph, done: set<string>) {
    && g.mem.Keys == g0.mem.Keys
    && g.ids.Keys == g0.ids.Keys
    && (forall id {:trigger g.ids[id]} :: id in g0.ids ==>
          g.ids[id] == if id in done && g0.ids[id].ptr != 0 then g0.ids[id].(link := 0) else g0.ids[id])
    && |g.tokens| == |g0.tokens|
    && (forall t: nat {:trigger g.tokens[t]} :: t < |g0.tokens| ==> g.tokens[t] == PatchedToken(g0, t, done))
  }

  ghost function PatchedToken(g0: Graph, t: nat, done: set<string>): Token
    requires t < |g0.tokens|
  {
    var k := g0.tokens[t];
    if k.fate == Pending && k.kind == Slot && k.id in done && k.id in g0.ids && g0.ids[k.id].ptr != 0
    then k.(fate := Holds(g0.ids[k.id].ptr)) else k
  }

  lemma PatchedMore(g0: Graph, g: Graph, done: set<string>, id: string, mem: map<nat, nat>)
    requires PatchedFor(g0, g, done) && Sound(g) && id in g.ids && g.ids[id].ptr != 0 && mem.Keys == g.mem.Keys
    ensures PatchedFor(g0, Patched(g, id, mem), done + {id})
  {
    var h := Patched(g, id, mem);
    forall t: nat | t < |g0.tokens| ensures h.tokens[t] == PatchedToken(g0, t, done + {id}) {
      assert g.tokens[t] == PatchedToken(g0, t, done);
    }
  }

  lemma PatchedSkip(g0: Graph, g: Graph, done: set<string>, id: string)
    requires PatchedFor(g0, g, done) && id in g0.ids && g0.ids[id].ptr == 0
    ensures PatchedFor(g0, g, done + {id})
  {
    forall t: nat | t < |g0.tokens| ensures g.tokens[t] == PatchedToken(g0, t, done + {id}) {
      assert g.tokens[t] == PatchedToken(g0, t, done);
    }
  }

  lemma PatchedStart(g: Graph)
    ensures PatchedFor(g, g, {})
  {
  }

  /** An entry whose id is known has its chain patched. */
  method PatchEntry(soap: Soap, i: nat, j: nat)
    requires soap.Valid() && i < |soap.iht| && j < |soap.iht[i]| && soap.iht[i][j].ptr != 0
    modifies soap
    ensures soap.Valid() && SameNames(old(soap.iht), soap.iht)
    ensures var id := old(soap.iht)[i][j].id;
            && id in old(soap.ids) && old(soap.ids)[id].ptr != 0 && id in old(soap.pend)
            && soap.mem.Keys == old(soap.mem).Keys
            && soap.G() == Patched(old(soap.G()), id, soap.mem)
  {
    hide TableOk, Sound, Overwritten;
    ghost var g := soap.G();
    var e := soap.iht[i][j];
    TableEntry(soap.iht, soap.ids, i, j);
    SoundKeys(g);
    SlotChain(g, e.id);
    soap.SetAt(i, j, e.(link := 0));
    PatchChain(soap, e.link, e.ptr, Ats(g.tokens, g.pend[e.id].slots));
    PatchSound(g, e.id, soap.mem);
    OverwrittenKeys(g.mem, soap.mem, Ats(g.tokens, g.pend[e.id].slots), e.ptr);
    soap.pend := soap.pend[e.id := Emptied(soap.pend[e.id], Slot)];
    soap.tokens := Fated(soap.tokens, e.id, Slot, Holds(e.ptr));
    assert soap.G() == Patched(g, e.id, soap.mem);
  }

  lemma OverwrittenKeys(mem: map<nat, nat>, mem': map<nat, nat>, pl: seq<nat>, r: nat)
    requires Overwritten(mem, mem', pl, r)
    ensures mem'.Keys == mem.Keys
  {
  }

  /** Every id of the buckets before i, and of the first j of bucket i. */
  ghost predicate Visited(iht: seq<seq<Ilist>>, i: nat, j: nat, done: set<string>) {
    && (forall x: nat, y: nat {:trigger iht[x][y]} :: x < i && x < |iht| && y < |iht[x]| ==> iht[x][y].id in done)
    && (i < |iht| ==> forall y: nat {:trigger iht[i][y]} :: y < j && y < |iht[i]| ==> iht[i][y].id in done)
  }

  lemma VisitedAll(iht: seq<seq<Ilist>>, ids: map<string, Ilist>, done: set<string>)
    requires TableOk(iht, ids) && Visited(iht, |iht|, 0, done)
    ensures ids.Keys <= done
  {
    forall id | id in ids ensures id in done {
      assert InBucket(iht[Bucket(id)], id);
    }
  }

  lemma VisitedNames(a: seq<seq<Ilist>>, b: seq<seq<Ilist>>, i: nat, j: nat, done: set<string>)
    requires SameNames(a, b) && Visited(a, i, j, done)
    ensures Visited(b, i, j, done)
  {
  }

  /** The ids that are entered by the end of the message must include every
      local one that was referred to. */
  ghost predicate Complete(g: Graph) {
    forall id :: id in g.ids && g.ids[id].ptr == 0 ==> id != "" && id[0] != '#'
  }

  method PatchAll(soap: Soap) returns (status: Status)
    requires soap.Valid()
    modifies soap
    ensures soap.Valid()
    ensures status == if Complete(old(soap.G())) then SOAP_OK else SOAP_MISSING_ID
    ensures status == SOAP_OK ==> PatchedFor(old(soap.G()), soap.G(), old(soap.ids).Keys)
    ensures status != SOAP_OK ==> Missing(old(soap.G()), soap.id)
  {
    hide TableOk, Sound, PatchedFor, Visited, SameNames;
    ghost var g := soap.G();
    ghost var done: set<string> := {};
    PatchedStart(g);
    TableSize(soap.iht, soap.ids);
    VisitedNone(soap.iht);
    status := SOAP_OK;
    var i := 0;
    while i < SOAP_IDHASH
      invariant 0 <= i <= SOAP_IDHASH == |soap.iht| && soap.Valid()
      invariant PatchedFor(g, soap.G(), done) && done <= g.ids.Keys && Visited(soap.iht, i, 0, done)
      invariant forall id :: id in done && g.ids[id].ptr == 0 ==> id != "" && id[0] != '#'
      invariant status == SOAP_OK
    {
      ghost var more;
      status, more := PatchBucket(soap, i, g, done);
      if status != SOAP_OK {
        return;
      }
      done := more;
      i := i + 1;
    }
    VisitedAll(soap.iht, soap.ids, done);
    SameKeys(g, soap.G(), done);
    assert done == g.ids.Keys;
  }

  ghost predicate Missing(g: Graph, name: string) {
    exists id :: id in g.ids && g.ids[id].ptr == 0 && id != "" && id[0] == '#' && name == id[1..]
  }

  lemma SameKeys(g0: Graph, g: Graph, done: set<string>)
    requires PatchedFor(g0, g, done)
    ensures g.ids.Keys == g0.ids.Keys
  {
  }

  lemma VisitedNone(iht: seq<seq<Ilist>>)
    ensures Visited(iht, 0, 0, {})
  {
  }

  lemma VisitedStep(iht: seq<seq<Ilist>>, i: nat, j: nat, done: set<string>)
    requires Visited(iht, i, j, done) && i < |iht| && j < |iht[i]|
    ensures Visited(iht, i, j + 1, done + {iht[i][j].id})
  {
  }

  lemma VisitedBucket(iht: seq<seq<Ilist>>, i: nat, done: set<string>)
    requires i < |iht| && Visited(iht, i, |iht[i]|, done)
    ensures Visited(iht, i + 1, 0, done)
  {
  }

  lemma NamesAt(a: seq<seq<Ilist>>, b: seq<seq<Ilist>>, i: nat)
    requires SameNames(a, b) && i < |a|
    ensures |a| == |b| && |a[i]| == |b[i]|
    ensures forall j: nat :: j < |a[i]| ==> a[i][j].id == b[i][j].id
  {
  }

  lemma NamesTrans(a: seq<seq<Ilist>>, b: seq<seq<Ilist>>, c: seq<seq<Ilist>>)
    requires SameNames(a, b) && SameNames(b, c)
    ensures SameNames(a, c)
  {
    forall i: nat, j: nat | i < |a| && j < |a[i]| ensures a[i][j].id == c[i][j].id {
      assert a[i][j].id == b[i][j].id;
    }
  }

  lemma EntryUnpatched(g0: Graph, g: Graph, done: set<string>, id: string)
    requires PatchedFor(g0, g, done) && id in g.ids
    ensures id in g0.ids && g.ids[id].ptr == g0.ids[id].ptr
  {
  }

  method PatchBucket(soap: Soap, i: nat, ghost g: Graph, ghost before: set<string>) returns (status: Status,
      ghost done: set<string>)
    requires soap.Valid() && i < |soap.iht| && before <= g.ids.Keys
    requires PatchedFor(g, soap.G(), before) && Visited(soap.iht, i, 0, before)
    requires forall id :: id in before && g.ids[id].ptr == 0 ==> id != "" && id[0] != '#'
    modifies soap
    ensures soap.Valid() && |soap.iht| == |old(soap.iht)|
    ensures status == SOAP_OK ==>
              && PatchedFor(g, soap.G(), done) && done <= g.ids.Keys && Visited(soap.iht, i + 1, 0, done)
              && (forall id :: id in done && g.ids[id].ptr == 0 ==> id != "" && id[0] != '#')
    ensures status != SOAP_OK ==> status == SOAP_MISSING_ID && !Complete(g) && Missing(g, soap.id)
  {
    hide TableOk, Sound, PatchedFor, Visited, SameNames, SameWord, Patched;
    done := before;
    var j := 0;
    while j < |soap.iht[i]|
      invariant soap.Valid() && i < |soap.iht| && |soap.iht| == |old(soap.iht)| && j <= |soap.iht[i]|
      invariant PatchedFor(g, soap.G(), done) && done <= g.ids.Keys && Visited(soap.iht, i, j, done)
      invariant forall id :: id in done && g.ids[id].ptr == 0 ==> id != "" && id[0] != '#'
      decreases |soap.iht[i]| - j
    {
      ghost var iht := soap.iht;
      ghost var name := soap.iht[i][j].id;
      TableEntry(soap.iht, soap.ids, i, j);
      EntryUnpatched(g, soap.G(), done, name);
      VisitedStep(iht, i, j, done);
      if soap.iht[i][j].ptr != 0 {
        ghost var was := soap.G();
        PatchEntry(soap, i, j);
        PatchedMore(g, was, done, name, soap.mem);
        NamesAt(iht, soap.iht, i);
        VisitedNames(iht, soap.iht, i, j + 1, done + {name});
      } else {
        SoundName(soap.G(), name);
        if soap.iht[i][j].id[0] == '#' {
          soap.id := soap.iht[i][j].id[1..];
          status := SOAP_MISSING_ID;
          return;
        }
        PatchedSkip(g, soap.G(), done, name);
      }
      done := done + {name};
      j := j + 1;
    }
    VisitedBucket(soap.iht, i, done);
    status := SOAP_OK;
  }

  lemma SoundName(g: Graph, id: string)
    requires Sound(g) && id in g.ids
    ensures id != "" && id in g.pend
  {
    assert EntryOk(g.mem, g.tokens, id, g.ids[id], g.pend[id]);
  }
}
