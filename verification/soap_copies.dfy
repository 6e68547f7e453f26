/** The copying phase of reference resolution: objects that were forwarded by
    value are copied to the places that wait for them, an object only once
    nothing inside it still waits. */
module SoapCopies {
  import opened SoapGraph

  ghost predicate Waits(g: Graph, t: nat) {
    t < |g.tokens| && g.tokens[t].fate == Pending && g.tokens[t].kind != Slot
  }

  function Size(g: Graph, t: nat): nat
    requires t < |g.tokens|
  {
    if g.tokens[t].id in g.ids then g.ids[g.tokens[t].id].size else 0
  }

  function Source(g: Graph, t: nat): nat
    requires t < |g.tokens|
  {
    if g.tokens[t].id in g.ids then g.ids[g.tokens[t].id].ptr else 0
  }

  ghost predicate Disjoint(a: nat, n: nat, b: nat, m: nat) {
    forall x: nat {:trigger Within(x, a, n)} {:trigger Within(x, b, m)} :: !(Within(x, a, n) && Within(x, b, m))
  }

  predicate Within(x: nat, a: nat, n: nat) {
    a <= x < a + n
  }

  /** A place that waits for a copy is an object of its own: nothing else is
      registered inside it, and no object with an id starts inside it. */
  ghost predicate OwnPlace(g: Graph, t: nat)
    requires t < |g.tokens|
  {
    && (forall u: nat :: u < |g.tokens| && u != t ==> !Within(g.tokens[u].at, g.tokens[t].at, Size(g, t)))
    && (forall u: nat ::
       u < |g.tokens| && u != t && g.tokens[u].kind != Slot ==>
           Disjoint(g.tokens[t].at, Size(g, t), g.tokens[u].at, Size(g, u)))
    && (forall id ::
       id in g.ids && g.ids[id].ptr != 0 ==> !(g.tokens[t].at < g.ids[id].ptr < g.tokens[t].at + Size(g, t)))
    && (forall x: nat :: Within(x, g.tokens[t].at, Size(g, t)) ==> x in g.mem)
  }

  /** The objects that exist do not overlap. */
  ghost predicate Layout(g: Graph) {
    && (forall t: nat :: Waits(g, t) ==> OwnPlace(g, t))
    && (forall id, x: nat ::
       id in g.ids && g.ids[id].ptr != 0 && Within(x, g.ids[id].ptr, g.ids[id].size) ==> x in g.mem)
  }

  /** Something inside the n words at a still waits for a copy. */
  ghost predicate Blocked(g: Graph, a: nat, n: nat) {
    exists t: nat :: Waits(g, t) && Within(g.tokens[t].at, a, n)
  }

  /** Word x of the two objects is the same. */
  ghost predicate SameWord(mem: map<nat, nat>, a: nat, mem': map<nat, nat>, b: nat, x: nat) {
    a + x in mem && b + x in mem' && mem'[b + x] == mem[a + x]
  }

  /** The place holds a copy of its object, and nothing inside the object
      waits any more. */
  ghost predicate Delivered(g: Graph, t: nat)
    requires t < |g.tokens|
  {
    && Source(g, t) != 0
    && !Blocked(g, Source(g, t), Size(g, t))
    && (forall x: nat :: x < Size(g, t) ==> SameWord(g.mem, Source(g, t), g.mem, g.tokens[t].at, x))
  }

  /** Since the resolution began at g0, copies were made but nothing else
      changed. */
  ghost predicate Progressed(g0: Graph, g: Graph) {
    && g.ids.Keys == g0.ids.Keys
    && (forall id {:trigger g.ids[id]} ::
       id in g0.ids ==>
           g.ids[id].ptr == g0.ids[id].ptr && g.ids[id].size == g0.ids[id].size && g.ids[id].link == g0.ids[id].link)
    && |g.tokens| == |g0.tokens|
    && (forall t: nat {:trigger g.tokens[t]} :: t < |g.tokens| ==> TokenProgressed(g0, g, t))
  }

  ghost predicate TokenProgressed(g0: Graph, g: Graph, t: nat)
    requires t < |g.tokens| == |g0.tokens|
  {
    if g0.tokens[t].fate == Pending && g0.tokens[t].kind != Slot && g.tokens[t].fate == Copied
    then g.tokens[t] == g0.tokens[t].(fate := Copied) && Delivered(g, t)
    else g.tokens[t] == g0.tokens[t]
  }

  // ---------- one copy ----------

  /** The n words at from were copied to the place to. */
  ghost predicate Pasted(mem: map<nat, nat>, mem': map<nat, nat>, from: nat, n: nat, to: nat) {
    && mem'.Keys == mem.Keys
    && (forall x: nat :: x < n ==> SameWord(mem, from, mem', to, x))
    && (forall a: nat {:trigger mem'[a]} :: a in mem && !Within(a, to, n) ==> mem'[a] == mem[a])
  }

  function Shrunk(c: Chains, k: Kind): Chains
    requires |Of(c, k)| > 0
  {
    match k
    case Slot => c.(slots := c.slots[..|c.slots| - 1])
    case Chained => c.(copies := c.copies[..|c.copies| - 1])
    case Listed => c.(lists := c.lists[..|c.lists| - 1])
  }

  function Served(e: Ilist, k: Kind, next: nat): Ilist {
    match k
    case Slot => e
    case Chained => e.(copy := next)
    case Listed => e.(flist := if |e.flist| == 0 then [] else e.flist[..|e.flist| - 1])
  }

  /** The head of a chain of copies is served. */
  function Popped(g: Graph, id: string, k: Kind, mem: map<nat, nat>): Graph
    requires id in g.ids && id in g.pend && |Of(g.pend[id], k)| > 0
    requires var t := Of(g.pend[id], k)[|Of(g.pend[id], k)| - 1]; t < |g.tokens| && g.tokens[t].at in g.mem
  {
    var t := Of(g.pend[id], k)[|Of(g.pend[id], k)| - 1];
    var e := g.ids[id];
    Graph(mem,
      g.ids[id := Served(e, k, g.mem[g.tokens[t].at])],
      g.pend[id := Shrunk(g.pend[id], k)],
      g.tokens[t := g.tokens[t].(fate := Copied)])
  }

  function Head(g: Graph, id: string, k: Kind): nat
    requires id in g.pend && |Of(g.pend[id], k)| > 0
  {
    Of(g.pend[id], k)[|Of(g.pend[id], k)| - 1]
  }

  /** The head of a non-empty chain, and of an empty one. */
  lemma HeadOf(g: Graph, id: string, k: Kind)
    requires Sound(g) && id in g.ids && k != Slot
    ensures k == Chained ==> (g.ids[id].copy != 0 <==> |Of(g.pend[id], k)| > 0)
    ensures k == Listed ==> |g.ids[id].flist| == |Of(g.pend[id], k)|
    ensures |Of(g.pend[id], k)| > 0 ==>
              var t := Head(g, id, k);
              && Waits(g, t) && g.tokens[t].id == id && g.tokens[t].kind == k && g.tokens[t].at in g.mem
              && (k == Chained ==> g.ids[id].copy == g.tokens[t].at)
              && (k == Listed ==> g.ids[id].flist[|g.ids[id].flist| - 1].ptr == g.tokens[t].at)
  {
    var c := Of(g.pend[id], k);
    HeadOfEntry(g.mem, g.tokens, id, k, g.ids[id], g.pend[id]);
    if |c| > 0 {
      assert c[|c| - 1] in c;
      WaitingToken(g, id, k, c[|c| - 1]);
    }
  }

  lemma HeadOfEntry(mem: map<nat, nat>, tokens: seq<Token>, id: string, k: Kind, e: Ilist, c: Chains)
    requires EntryOk(mem, tokens, id, e, c) && k != Slot
    ensures k == Chained ==> (e.copy != 0 <==> |Of(c, k)| > 0)
    ensures k == Listed ==> |e.flist| == |Of(c, k)|
    ensures |Of(c, k)| > 0 ==>
              var t := Of(c, k)[|Of(c, k)| - 1];
              && (k == Chained ==> e.copy == At(tokens, t))
              && (k == Listed ==> e.flist[|e.flist| - 1].ptr == At(tokens, t))
  {
    var l := Of(c, k);
    if |l| > 0 {
      AtsAt(tokens, l, |l| - 1);
      if k == Chained {
        assert Linked(mem, Ats(tokens, l), |l| - 1);
      }
    }
  }

  lemma PopSound(g: Graph, id: string, k: Kind, mem: map<nat, nat>)
    requires Sound(g) && id in g.ids && k != Slot && |Of(g.pend[id], k)| > 0
    requires Waits(g, Head(g, id, k)) && g.tokens[Head(g, id, k)].at in g.mem
    requires OwnPlace(g, Head(g, id, k)) && g.tokens[Head(g, id, k)].id == id
    requires Pasted(g.mem, mem, g.ids[id].ptr, g.ids[id].size, g.tokens[Head(g, id, k)].at)
    ensures Sound(Popped(g, id, k, mem))
  {
    var h := Popped(g, id, k, mem);
    var t := Head(g, id, k);
    forall u: nat | u < |h.tokens| ensures TokenOk(h, u) {
      assert TokenOk(g, u);
      if u != t {
        assert !Within(g.tokens[u].at, g.tokens[t].at, Size(g, t));
        StillWaits(g, id, k, g.tokens[u].id, g.tokens[u].kind, u);
      }
    }
    forall i | i in h.ids ensures EntryOk(h.mem, h.tokens, i, h.ids[i], h.pend[i]) {
      PopEntry(g, id, k, mem, i);
    }
  }

  lemma StillWaits(g: Graph, id: string, k: Kind, i: string, kind: Kind, u: nat)
    requires id in g.pend && i in g.pend && |Of(g.pend[id], k)| > 0 && u != Head(g, id, k)
    ensures u in Of(g.pend[i], kind) ==> u in Of(g.pend[id := Shrunk(g.pend[id], k)][i], kind)
  {
  }

  lemma PopEntry(g: Graph, id: string, k: Kind, mem: map<nat, nat>, i: string)
    requires Sound(g) && id in g.ids && i in g.ids && k != Slot && |Of(g.pend[id], k)| > 0
    requires Waits(g, Head(g, id, k)) && g.tokens[Head(g, id, k)].at in g.mem
    requires OwnPlace(g, Head(g, id, k)) && g.tokens[Head(g, id, k)].id == id
    requires Pasted(g.mem, mem, g.ids[id].ptr, g.ids[id].size, g.tokens[Head(g, id, k)].at)
    ensures var h := Popped(g, id, k, mem); EntryOk(h.mem, h.tokens, i, h.ids[i], h.pend[i])
  {
    var h := Popped(g, id, k, mem);
    assert EntryOk(g.mem, g.tokens, i, g.ids[i], g.pend[i]);
    PoppedEntry(g, id, k, mem, i);
    hide EntryOk, Sound, OwnPlace, Pasted, Waits;
    forall kind: Kind, u: nat | u in Of(h.pend[i], kind) ensures Steady(g.mem, g.tokens, h.mem, h.tokens, u) {
      PopSteady(g, id, k, mem, i, kind, u);
    }
    EntryFrame(g.mem, g.tokens, h.mem, h.tokens, i, h.ids[i], h.pend[i]);
  }

  lemma PoppedEntry(g: Graph, id: string, k: Kind, mem: map<nat, nat>, i: string)
    requires Sound(g) && id in g.ids && i in g.ids && k != Slot && |Of(g.pend[id], k)| > 0
    requires Head(g, id, k) < |g.tokens| && g.tokens[Head(g, id, k)].at in g.mem
    ensures var h := Popped(g, id, k, mem); EntryOk(g.mem, g.tokens, i, h.ids[i], h.pend[i])
  {
    var e, c := g.ids[i], g.pend[i];
    assert EntryOk(g.mem, g.tokens, i, e, c);
    hide EntryOk, Sound, Served, Shrunk;
    if i == id {
      ShorterEntry(g.mem, g.tokens, id, k, e, c);
    }
  }

  lemma PopSteady(g: Graph, id: string, k: Kind, mem: map<nat, nat>, i: string, kind: Kind, u: nat)
    requires Sound(g) && id in g.ids && i in g.ids && k != Slot && |Of(g.pend[id], k)| > 0
    requires Waits(g, Head(g, id, k)) && g.tokens[Head(g, id, k)].at in g.mem
    requires OwnPlace(g, Head(g, id, k)) && g.tokens[Head(g, id, k)].id == id
    requires Pasted(g.mem, mem, g.ids[id].ptr, g.ids[id].size, g.tokens[Head(g, id, k)].at)
    requires u in Of(g.pend[id := Shrunk(g.pend[id], k)][i], kind)
    ensures Steady(g.mem, g.tokens, mem, Popped(g, id, k, mem).tokens, u)
  {
    Remains(g, id, k, i, kind, u);
    WaitingToken(g, i, kind, u);
    assert !Within(g.tokens[u].at, g.tokens[Head(g, id, k)].at, Size(g, Head(g, id, k)));
  }

  lemma Remains(g: Graph, id: string, k: Kind, i: string, kind: Kind, u: nat)
    requires Sound(g) && id in g.ids && i in g.ids && |Of(g.pend[id], k)| > 0
    requires u in Of(g.pend[id := Shrunk(g.pend[id], k)][i], kind)
    ensures u in Of(g.pend[i], kind) && u != Head(g, id, k)
  {
    var c := Of(g.pend[id], k);
    assert c[|c| - 1] in c;
    WaitingToken(g, id, k, c[|c| - 1]);
    assert u in Of(g.pend[i], kind);
    WaitingToken(g, i, kind, u);
    if i == id && kind == k {
      assert EntryOk(g.mem, g.tokens, id, g.ids[id], g.pend[id]);
      assert Waiting(g.tokens, id, k, c);
      var j: nat :| j < |c| - 1 && c[j] == u;
    }
  }

  lemma ShorterEntry(mem: map<nat, nat>, tokens: seq<Token>, id: string, k: Kind, e: Ilist, c: Chains)
    requires EntryOk(mem, tokens, id, e, c) && k != Slot && |Of(c, k)| > 0
    requires var t := Of(c, k)[|Of(c, k)| - 1]; t < |tokens| && tokens[t].at in mem
    ensures var t := Of(c, k)[|Of(c, k)| - 1];
            EntryOk(mem, tokens, id, Served(e, k, mem[tokens[t].at]), Shrunk(c, k))
  {
    var l := Of(c, k);
    ShorterAts(tokens, l);
    assert At(tokens, l[|l| - 1]) == tokens[l[|l| - 1]].at;
    if k == Chained {
      AtsAt(tokens, l, |l| - 1);
      hide Ats, At;
      ShorterThread(mem, e.copy, Ats(tokens, l));
    } else {
      hide Ats, At, Thread;
    }
  }

  lemma ShorterAts(tokens: seq<Token>, c: seq<nat>)
    requires |c| > 0
    ensures Ats(tokens, c[..|c| - 1]) == Ats(tokens, c)[..|c| - 1]
  {
    var l, r := Ats(tokens, c[..|c| - 1]), Ats(tokens, c)[..|c| - 1];
    forall j: nat | j < |l| ensures l[j] == r[j] {
      AtsAt(tokens, c, j);
      AtsAt(tokens, c[..|c| - 1], j);
    }
  }

  lemma ShorterThread(mem: map<nat, nat>, head: nat, pl: seq<nat>)
    requires Thread(mem, head, pl) && |pl| > 0
    ensures head in mem && Thread(mem, mem[head], pl[..|pl| - 1])
  {
    var ql := pl[..|pl| - 1];
    assert Linked(mem, pl, |pl| - 1);
    forall j: nat | j < |ql| ensures Linked(mem, ql, j) {
      assert Linked(mem, pl, j);
    }
  }

  /** A copy to an unblocked place leaves every earlier copy as it was made. */
  lemma PopProgress(g0: Graph, g: Graph, id: string, k: Kind, mem: map<nat, nat>)
    requires Progressed(g0, g) && Sound(g) && Layout(g)
    requires id in g.ids && k != Slot && |Of(g.pend[id], k)| > 0
    requires Waits(g, Head(g, id, k)) && g.tokens[Head(g, id, k)].at in g.mem && g.tokens[Head(g, id, k)].id == id
    requires g.ids[id].ptr != 0 && !Blocked(g, g.ids[id].ptr, g.ids[id].size)
    requires Pasted(g.mem, mem, g.ids[id].ptr, g.ids[id].size, g.tokens[Head(g, id, k)].at)
    ensures var h := Popped(g, id, k, mem);
            Progressed(g0, h) && Layout(h) && !Blocked(h, h.ids[id].ptr, h.ids[id].size)
  {
    var h := Popped(g, id, k, mem);
    var t := Head(g, id, k);
    assert OwnPlace(g, t);
    PopLayout(g, id, k, mem);
    hide OwnPlace, Layout, Pasted;
    forall u: nat | u < |h.tokens| ensures TokenProgressed(g0, h, u) {
      assert TokenProgressed(g0, g, u) && TokenOk(g, u);
      if g0.tokens[u].fate == Pending && g0.tokens[u].kind != Slot && h.tokens[u].fate == Copied {
        KeepsDelivery(g, h, t, u);
      }
    }
  }

  lemma PopLayout(g: Graph, id: string, k: Kind, mem: map<nat, nat>)
    requires Layout(g) && id in g.ids && id in g.pend && k != Slot && |Of(g.pend[id], k)| > 0
    requires Waits(g, Head(g, id, k)) && g.tokens[Head(g, id, k)].at in g.mem
    requires mem.Keys == g.mem.Keys
    ensures var h := Popped(g, id, k, mem);
            && Layout(h)
            && (forall u: nat :: Waits(h, u) ==> Waits(g, u) && h.tokens[u] == g.tokens[u])
            && (forall u: nat :: u < |g.tokens| ==> Size(h, u) == Size(g, u) && Source(h, u) == Source(g, u))
  {
    var h := Popped(g, id, k, mem);
    forall u: nat | u < |h.tokens|
      ensures Size(h, u) == Size(g, u) && Source(h, u) == Source(g, u) && h.tokens[u].at == g.tokens[u].at
    {
      assert h.tokens[u].id == g.tokens[u].id;
    }
    forall u: nat | Waits(h, u) ensures OwnPlace(h, u) {
      assert Waits(g, u) && OwnPlace(g, u);
    }
  }

  /** What is at a waiting place is no part of an object that is not blocked. */
  lemma PlaceOutside(g: Graph, t: nat, id: string, x: nat)
    requires Layout(g) && Waits(g, t) && id in g.ids && g.ids[id].ptr != 0
    requires !Blocked(g, g.ids[id].ptr, g.ids[id].size)
    requires Within(x, g.ids[id].ptr, g.ids[id].size)
    ensures !Within(x, g.tokens[t].at, Size(g, t))
  {
    assert OwnPlace(g, t);
    assert !Within(g.tokens[t].at, g.ids[id].ptr, g.ids[id].size);
  }

  lemma KeepsDelivery(g: Graph, h: Graph, t: nat, u: nat)
    requires Sound(g) && Layout(g) && Waits(g, t) && u < |g.tokens| == |h.tokens|
    requires g.tokens[t].id in g.ids && g.tokens[u].id in g.ids
    requires Source(g, t) != 0 && !Blocked(g, Source(g, t), Size(g, t))
    requires Pasted(g.mem, h.mem, Source(g, t), Size(g, t), g.tokens[t].at)
    requires u == t || (Delivered(g, u) && g.tokens[u].kind != Slot)
    requires h.tokens[u].at == g.tokens[u].at && Size(h, u) == Size(g, u) && Source(h, u) == Source(g, u)
    requires forall v: nat :: Waits(h, v) ==> Waits(g, v) && h.tokens[v] == g.tokens[v]
    ensures Delivered(h, u)
  {
    var n, s, a := Size(g, u), Source(g, u), g.tokens[u].at;
    assert !Blocked(h, s, n);
    forall x: nat | x < n ensures SameWord(h.mem, s, h.mem, a, x) {
      assert Within(s + x, s, n) && Within(a + x, a, n);
      assert SameWord(g.mem, s, if u == t then h.mem else g.mem, a, x);
      PlaceOutside(g, t, g.tokens[u].id, s + x);
      assert h.mem[s + x] == g.mem[s + x];
      if u != t {
        assert OwnPlace(g, t);
        assert Disjoint(g.tokens[t].at, Size(g, t), a, n);
        assert !Within(a + x, g.tokens[t].at, Size(g, t));
      }
    }
  }
}
