/** The bookkeeping behind id/href references while a message is parsed:
    memory as a map from addresses to words, one entry per id, and the chains
    of references that wait for their id, threaded through the very words that
    will be patched. Every reference ever registered is a token whose address
    follows it when the memory around it moves. */
module SoapGraph {

  /** A slot receives the address of the object, the other two kinds a copy of
      it: chained through their first word, or listed on the side. */
  datatype Kind = Slot | Chained | Listed

  datatype Fate = Pending | Holds(value: nat) | Copied

  datatype Token = Token(id: string, at: nat, kind: Kind, fate: Fate)

  /** A forward that is kept on the side; the last one is the head. */
  datatype Flist = Flist(ty: int, ptr: nat, len: nat)

  /** An entry of the id table. Address 0 is the null pointer. */
  datatype Ilist = Ilist(id: string, ty: int, size: nat, link: nat, copy: nat, flist: seq<Flist>, ptr: nat)

  /** The tokens that wait for an id, oldest first. */
  datatype Chains = Chains(slots: seq<nat>, copies: seq<nat>, lists: seq<nat>)

  datatype Graph = Graph(mem: map<nat, nat>, ids: map<string, Ilist>, pend: map<string, Chains>, tokens: seq<Token>)

  function Of(c: Chains, k: Kind): seq<nat> {
    match k
    case Slot => c.slots
    case Chained => c.copies
    case Listed => c.lists
  }

  function At(tokens: seq<Token>, t: nat): nat {
    if t < |tokens| then tokens[t].at else 0
  }

  function Ats(tokens: seq<Token>, c: seq<nat>): (r: seq<nat>)
    ensures |r| == |c|
  {
    seq(|c|, j requires 0 <= j < |c| => At(tokens, c[j]))
  }

  /** What the head of a chain, or the word at place j, points to. */
  function Under(pl: seq<nat>, j: nat): nat
    requires j <= |pl|
  {
    if j == 0 then 0 else pl[j - 1]
  }

  /** A null-terminated chain through memory that visits the places from the
      last to the first. */
  ghost predicate Thread(mem: map<nat, nat>, head: nat, pl: seq<nat>) {
    && head == Under(pl, |pl|)
    && (forall j: nat {:trigger Linked(mem, pl, j)} :: j < |pl| ==> Linked(mem, pl, j))
  }

  /** Place j of the chain points to the one registered before it. */
  ghost predicate Linked(mem: map<nat, nat>, pl: seq<nat>, j: nat)
    requires j < |pl|
  {
    pl[j] != 0 && pl[j] in mem && mem[pl[j]] == Under(pl, j)
  }

  ghost predicate Listing(flist: seq<Flist>, pl: seq<nat>) {
    && |flist| == |pl|
    && (forall j: nat :: j < |pl| ==> flist[j].ptr == pl[j])
  }

  /** The pending tokens of one kind, all of the id, in order of age. */
  ghost predicate Waiting(tokens: seq<Token>, id: string, kind: Kind, c: seq<nat>) {
    && (forall j: nat ::
       j < |c| ==>
         && c[j] < |tokens| && tokens[c[j]].id == id && tokens[c[j]].kind == kind
         && tokens[c[j]].fate == Pending)
    && (forall i: nat, j: nat :: i < j < |c| ==> c[i] < c[j])
  }

  ghost predicate EntryOk(mem: map<nat, nat>, tokens: seq<Token>, id: string, e: Ilist, c: Chains) {
    && e.id == id && id != ""
    && Waiting(tokens, id, Slot, c.slots)
    && Waiting(tokens, id, Chained, c.copies)
    && Waiting(tokens, id, Listed, c.lists)
    && Thread(mem, e.link, Ats(tokens, c.slots))
    && Thread(mem, e.copy, Ats(tokens, c.copies))
    && Listing(e.flist, Ats(tokens, c.lists))
  }

  ghost predicate TokenOk(g: Graph, t: nat)
    requires t < |g.tokens|
  {
    var k := g.tokens[t];
    && k.id in g.ids && k.id in g.pend
    && k.at in g.mem
    && (k.fate == Pending ==> t in Of(g.pend[k.id], k.kind))
    && (k.fate.Holds? ==> k.kind == Slot && g.mem[k.at] == k.fate.value)
    && (k.fate == Copied ==> k.kind != Slot)
  }

  ghost predicate Apart(tokens: seq<Token>) {
    forall t: nat, u: nat :: t < u < |tokens| ==> tokens[t].at != tokens[u].at
  }

  ghost predicate Sound(g: Graph) {
    && 0 !in g.mem
    && g.pend.Keys == g.ids.Keys
    && Apart(g.tokens)
    && (forall t: nat {:trigger g.tokens[t]} :: t < |g.tokens| ==> TokenOk(g, t))
    && (forall id {:trigger g.ids[id]} {:trigger g.pend[id]} ::
       id in g.ids ==> EntryOk(g.mem, g.tokens, id, g.ids[id], g.pend[id]))
  }

  /** No reference is registered at the place. */
  ghost predicate Unregistered(g: Graph, p: nat) {
    forall t: nat :: t < |g.tokens| ==> g.tokens[t].at != p
  }

  // ---------- frames ----------

  lemma AtsAt(tokens: seq<Token>, c: seq<nat>, j: nat)
    requires j < |c|
    ensures Ats(tokens, c)[j] == At(tokens, c[j])
  {
  }

  /** A token whose place and word are as they were. */
  ghost predicate Steady(mem: map<nat, nat>, tokens: seq<Token>, mem': map<nat, nat>, tokens': seq<Token>, t: nat) {
    && t < |tokens| <= |tokens'| && tokens'[t] == tokens[t]
    && tokens[t].at in mem && tokens[t].at in mem' && mem'[tokens[t].at] == mem[tokens[t].at]
  }

  /** An entry stays in order when the tokens of its chains do. */
  lemma EntryFrame(mem: map<nat, nat>, tokens: seq<Token>, mem': map<nat, nat>, tokens': seq<Token>, id: string,
      e: Ilist, c: Chains)
    requires EntryOk(mem, tokens, id, e, c)
    requires forall k: Kind, t: nat {:trigger t in Of(c, k)} :: t in Of(c, k) ==> Steady(mem, tokens, mem', tokens', t)
    ensures EntryOk(mem', tokens', id, e, c)
  {
    assert Of(c, Slot) == c.slots;
    ChainFrame(mem, tokens, mem', tokens', id, Slot, c.slots);
    assert Of(c, Chained) == c.copies;
    ChainFrame(mem, tokens, mem', tokens', id, Chained, c.copies);
    assert Of(c, Listed) == c.lists;
    ChainFrame(mem, tokens, mem', tokens', id, Listed, c.lists);
    ThreadFrame(mem, mem', e.link, Ats(tokens, c.slots));
    ThreadFrame(mem, mem', e.copy, Ats(tokens, c.copies));
  }

  lemma ChainFrame(mem: map<nat, nat>, tokens: seq<Token>, mem': map<nat, nat>, tokens': seq<Token>, id: string,
      kind: Kind, c: seq<nat>)
    requires Waiting(tokens, id, kind, c)
    requires forall t: nat :: t in c ==> Steady(mem, tokens, mem', tokens', t)
    ensures Waiting(tokens', id, kind, c) && Ats(tokens', c) == Ats(tokens, c)
    ensures forall j: nat :: j < |c| ==> var p := Ats(tokens, c)[j]; p in mem && p in mem' && mem'[p] == mem[p]
  {
    var l, r := Ats(tokens', c), Ats(tokens, c);
    forall j: nat | j < |c| ensures Steady(mem, tokens, mem', tokens', c[j]) {
      assert c[j] in c;
    }
    forall j: nat | j < |l| ensures l[j] == r[j] && r[j] in mem && r[j] in mem' && mem'[r[j]] == mem[r[j]] {
      assert Steady(mem, tokens, mem', tokens', c[j]);
      AtsAt(tokens, c, j);
    }
  }

  lemma ThreadFrame(mem: map<nat, nat>, mem': map<nat, nat>, head: nat, pl: seq<nat>)
    requires Thread(mem, head, pl)
    requires forall j: nat :: j < |pl| ==> pl[j] in mem && pl[j] in mem' && mem'[pl[j]] == mem[pl[j]]
    ensures Thread(mem', head, pl)
  {
    forall j: nat | j < |pl| ensures Linked(mem', pl, j) {
      assert Linked(mem, pl, j);
    }
  }

  /** The tokens of a chain are known and pending. */
  lemma WaitingToken(g: Graph, id: string, k: Kind, t: nat)
    requires Sound(g) && id in g.ids && t in Of(g.pend[id], k)
    ensures t < |g.tokens| && TokenOk(g, t)
    ensures g.tokens[t].id == id && g.tokens[t].kind == k && g.tokens[t].fate == Pending
  {
    assert EntryOk(g.mem, g.tokens, id, g.ids[id], g.pend[id]);
    assert Waiting(g.tokens, id, k, Of(g.pend[id], k)) by {
      match k {
        case Slot =>
        case Chained =>
        case Listed =>
      }
    }
    var j: nat :| j < |Of(g.pend[id], k)| && Of(g.pend[id], k)[j] == t;
  }

  // ---------- registering ----------

  /** A new entry, with nothing waiting for it. */
  function NewEntry(g: Graph, e: Ilist): Graph {
    g.(ids := g.ids[e.id := e], pend := g.pend[e.id := Chains([], [], [])])
  }

  lemma NewEntrySound(g: Graph, e: Ilist)
    requires Sound(g) && e.id !in g.ids && e.id != ""
    requires e.link == 0 && e.copy == 0 && e.flist == []
    ensures Sound(NewEntry(g, e))
  {
    var h := NewEntry(g, e);
    forall t: nat | t < |h.tokens| ensures TokenOk(h, t) {
      assert TokenOk(g, t);
    }
    forall id | id in h.ids ensures EntryOk(h.mem, h.tokens, id, h.ids[id], h.pend[id]) {
      if id != e.id {
        assert EntryOk(g.mem, g.tokens, id, g.ids[id], g.pend[id]);
      }
    }
  }

  lemma SameEntry(mem: map<nat, nat>, tokens: seq<Token>, id: string, e: Ilist, e': Ilist, c: Chains)
    requires EntryOk(mem, tokens, id, e, c)
    requires e'.id == id && e'.link == e.link && e'.copy == e.copy && e'.flist == e.flist
    ensures EntryOk(mem, tokens, id, e', c)
  {
  }

  /** A change of the type, size or address of an entry. */
  function SetEntry(g: Graph, e: Ilist): Graph {
    g.(ids := g.ids[e.id := e])
  }

  lemma SetEntrySound(g: Graph, e: Ilist)
    requires Sound(g) && e.id in g.ids
    requires e.link == g.ids[e.id].link && e.copy == g.ids[e.id].copy && e.flist == g.ids[e.id].flist
    ensures Sound(SetEntry(g, e))
  {
    var h := SetEntry(g, e);
    hide EntryOk, Apart;
    forall t: nat | t < |h.tokens| ensures TokenOk(h, t) {
      assert TokenOk(g, t);
    }
    forall id | id in h.ids ensures EntryOk(h.mem, h.tokens, id, h.ids[id], h.pend[id]) {
      assert EntryOk(g.mem, g.tokens, id, g.ids[id], g.pend[id]);
      if id == e.id {
        SameEntry(g.mem, g.tokens, id, g.ids[id], e, g.pend[id]);
      }
    }
  }

  function Grown(c: Chains, k: Kind, t: nat): Chains {
    match k
    case Slot => c.(slots := c.slots + [t])
    case Chained => c.(copies := c.copies + [t])
    case Listed => c.(lists := c.lists + [t])
  }

  function Pushed(e: Ilist, kind: Kind, p: nat, f: Flist): Ilist {
    match kind
    case Slot => e.(link := p)
    case Chained => e.(copy := p)
    case Listed => e.(flist := e.flist + [f])
  }

  /** A forward to id registers at place p: it becomes the head of its chain
      and remembers the old head in the word at p. */
  function Push(g: Graph, id: string, kind: Kind, p: nat, f: Flist): Graph
    requires id in g.ids && id in g.pend
  {
    var e := g.ids[id];
    Graph(
      if kind == Slot then g.mem[p := e.link] else if kind == Chained then g.mem[p := e.copy] else g.mem,
      g.ids[id := Pushed(e, kind, p, f)],
      g.pend[id := Grown(g.pend[id], kind, |g.tokens|)],
      g.tokens + [Token(id, p, kind, Pending)])
  }

  lemma PushSound(g: Graph, id: string, kind: Kind, p: nat, f: Flist)
    requires Sound(g) && id in g.ids && p in g.mem && Unregistered(g, p) && f.ptr == p
    ensures Sound(Push(g, id, kind, p, f))
  {
    var h := Push(g, id, kind, p, f);
    var n := |g.tokens|;
    forall t: nat | t < |h.tokens| ensures TokenOk(h, t) {
      PushToken(g, id, kind, p, f, t);
    }
    forall i | i in h.ids ensures EntryOk(h.mem, h.tokens, i, h.ids[i], h.pend[i]) {
      assert EntryOk(g.mem, g.tokens, i, g.ids[i], g.pend[i]);
      forall k: Kind, t: nat | t in Of(g.pend[i], k) ensures Steady(g.mem, g.tokens, h.mem, h.tokens, t) {
        WaitingToken(g, i, k, t);
      }
      EntryFrame(g.mem, g.tokens, h.mem, h.tokens, i, g.ids[i], g.pend[i]);
      if i == id {
        WaitingBelow(g, id, kind);
        hide EntryOk, Sound;
        PushEntry(h.mem, h.tokens, id, kind, g.ids[id], g.pend[id], p, f, n);
      }
    }
  }

  lemma WaitingBelow(g: Graph, id: string, kind: Kind)
    requires Sound(g) && id in g.ids
    ensures forall j: nat :: j < |Of(g.pend[id], kind)| ==> Of(g.pend[id], kind)[j] < |g.tokens|
  {
    assert EntryOk(g.mem, g.tokens, id, g.ids[id], g.pend[id]);
  }

  lemma PushToken(g: Graph, id: string, kind: Kind, p: nat, f: Flist, t: nat)
    requires Sound(g) && id in g.ids && p in g.mem && Unregistered(g, p) && t <= |g.tokens|
    ensures TokenOk(Push(g, id, kind, p, f), t)
  {
    var h := Push(g, id, kind, p, f);
    if t == |g.tokens| {
      var c := Of(h.pend[id], kind);
      assert c[|c| - 1] == t;
    } else {
      assert TokenOk(g, t);
      var k := g.tokens[t];
      assert h.tokens[t] == k;
      if k.fate == Pending {
        Kept(g.pend[k.id], kind, |g.tokens|, k.kind, t);
      }
    }
  }

  lemma Kept(c: Chains, kind: Kind, n: nat, k: Kind, t: nat)
    requires t in Of(c, k)
    ensures t in Of(Grown(c, kind, n), k)
  {
  }

  /** The entry that the new forward waits for. */
  lemma PushEntry(mem: map<nat, nat>, tokens: seq<Token>, id: string, kind: Kind, e: Ilist, c: Chains, p: nat, f: Flist,
      n: nat)
    requires EntryOk(mem, tokens, id, e, c)
    requires n < |tokens| && tokens[n] == Token(id, p, kind, Pending)
    requires forall j: nat :: j < |Of(c, kind)| ==> Of(c, kind)[j] < n
    requires p != 0 && p in mem && f.ptr == p
    requires kind == Slot ==> mem[p] == e.link
    requires kind == Chained ==> mem[p] == e.copy
    ensures EntryOk(mem, tokens, id, Pushed(e, kind, p, f), Grown(c, kind, n))
  {
    hide Ats;
    WaitingGrows(tokens, id, kind, Of(c, kind), n);
    AtsGrows(tokens, Of(c, kind), n);
    match kind {
      case Slot => ThreadGrows(mem, e.link, Ats(tokens, c.slots), p);
      case Chained => ThreadGrows(mem, e.copy, Ats(tokens, c.copies), p);
      case Listed =>
    }
  }

  lemma WaitingGrows(tokens: seq<Token>, id: string, kind: Kind, c: seq<nat>, n: nat)
    requires Waiting(tokens, id, kind, c) && n < |tokens| && tokens[n].id == id && tokens[n].kind == kind
        && tokens[n].fate == Pending
    requires forall j: nat :: j < |c| ==> c[j] < n
    ensures Waiting(tokens, id, kind, c + [n])
  {
  }

  lemma AtsGrows(tokens: seq<Token>, c: seq<nat>, n: nat)
    ensures Ats(tokens, c + [n]) == Ats(tokens, c) + [At(tokens, n)]
  {
    var l, r := Ats(tokens, c + [n]), Ats(tokens, c) + [At(tokens, n)];
    forall j: nat | j < |l| ensures l[j] == r[j] {
      AtsAt(tokens, c + [n], j);
    }
  }

  lemma ThreadGrows(mem: map<nat, nat>, head: nat, pl: seq<nat>, p: nat)
    requires Thread(mem, head, pl) && p != 0 && p in mem && mem[p] == head
    ensures Thread(mem, p, pl + [p])
  {
    var bs := pl + [p];
    forall j: nat | j < |bs| ensures Linked(mem, bs, j) {
      if j < |pl| {
        assert Linked(mem, pl, j);
        assert bs[j] == pl[j] && Under(bs, j) == Under(pl, j);
      }
    }
  }

  /** A slot whose id is known already receives the address at once. */
  function Settle(g: Graph, id: string, p: nat): Graph
    requires id in g.ids
  {
    g.(mem := g.mem[p := g.ids[id].ptr], tokens := g.tokens + [Token(id, p, Slot, Holds(g.ids[id].ptr))])
  }

  lemma SettleSound(g: Graph, id: string, p: nat)
    requires Sound(g) && id in g.ids && p in g.mem && Unregistered(g, p)
    ensures Sound(Settle(g, id, p))
  {
    var h := Settle(g, id, p);
    forall t: nat | t < |h.tokens| ensures TokenOk(h, t) {
      if t < |g.tokens| {
        assert TokenOk(g, t);
        assert h.tokens[t] == g.tokens[t];
      }
    }
    forall i | i in h.ids ensures EntryOk(h.mem, h.tokens, i, h.ids[i], h.pend[i]) {
      forall k: Kind, t: nat | t in Of(g.pend[i], k) ensures Steady(g.mem, g.tokens, h.mem, h.tokens, t) {
        WaitingToken(g, i, k, t);
      }
      EntryFrame(g.mem, g.tokens, h.mem, h.tokens, i, g.ids[i], g.pend[i]);
    }
  }

  /** Memory may change in any way that leaves the registered words alone,
      except those whose copy was made. */
  lemma MemorySound(g: Graph, mem: map<nat, nat>)
    requires Sound(g) && 0 !in mem
    requires forall t: nat {:trigger g.tokens[t]} :: t < |g.tokens| && g.tokens[t].at in g.mem ==>
               g.tokens[t].at in mem && (g.tokens[t].fate != Copied ==> mem[g.tokens[t].at] == g.mem[g.tokens[t].at])
    ensures Sound(g.(mem := mem))
  {
    var h := g.(mem := mem);
    forall t: nat | t < |h.tokens| ensures TokenOk(h, t) {
      assert TokenOk(g, t);
    }
    forall i | i in h.ids ensures EntryOk(h.mem, h.tokens, i, h.ids[i], h.pend[i]) {
      forall k: Kind, t: nat | t in Of(g.pend[i], k) ensures Steady(g.mem, g.tokens, h.mem, h.tokens, t) {
        WaitingToken(g, i, k, t);
      }
      EntryFrame(g.mem, g.tokens, h.mem, h.tokens, i, g.ids[i], g.pend[i]);
    }
  }

  // ---------- resolving ----------

  /** Every place of the chain was overwritten with one word, and nothing
      else. */
  ghost predicate Overwritten(mem: map<nat, nat>, mem': map<nat, nat>, pl: seq<nat>, r: nat) {
    && mem'.Keys == mem.Keys
    && (forall j: nat :: j < |pl| ==> pl[j] in mem' && mem'[pl[j]] == r)
    && (forall a: nat {:trigger mem'[a]} :: a in mem && a !in pl ==> mem'[a] == mem[a])
  }

  function Fated(tokens: seq<Token>, id: string, kind: Kind, f: Fate): (r: seq<Token>)
    ensures |r| == |tokens|
  {
    seq(|tokens|, t requires 0 <= t < |tokens| =>
      if tokens[t].id == id && tokens[t].kind == kind && tokens[t].fate == Pending then tokens[t].(fate := f)
          else tokens[t])
  }

  function Emptied(c: Chains, kind: Kind): Chains {
    match kind
    case Slot => c.(slots := [])
    case Chained => c.(copies := [])
    case Listed => c.(lists := [])
  }

  /** The slots that waited for id hold its address. */
  function Patched(g: Graph, id: string, mem: map<nat, nat>): Graph
    requires id in g.ids && id in g.pend
  {
    Graph(mem, g.ids[id := g.ids[id].(link := 0)], g.pend[id := Emptied(g.pend[id], Slot)],
      Fated(g.tokens, id, Slot, Holds(g.ids[id].ptr)))
  }

  lemma PatchSound(g: Graph, id: string, mem: map<nat, nat>)
    requires Sound(g) && id in g.ids
    requires Overwritten(g.mem, mem, Ats(g.tokens, g.pend[id].slots), g.ids[id].ptr)
    ensures Sound(Patched(g, id, mem))
  {
    var h := Patched(g, id, mem);
    forall t: nat | t < |h.tokens| ensures TokenOk(h, t) {
      assert TokenOk(g, t);
      PatchedPlace(g, id, mem, t);
      if t in g.pend[id].slots {
        WaitingToken(g, id, Slot, t);
      }
    }
    forall i | i in h.ids ensures EntryOk(h.mem, h.tokens, i, h.ids[i], h.pend[i]) {
      PatchEntry(g, id, mem, i);
    }
  }

  lemma PatchEntry(g: Graph, id: string, mem: map<nat, nat>, i: string)
    requires Sound(g) && id in g.ids && i in g.ids
    requires Overwritten(g.mem, mem, Ats(g.tokens, g.pend[id].slots), g.ids[id].ptr)
    ensures var h := Patched(g, id, mem); EntryOk(h.mem, h.tokens, i, h.ids[i], h.pend[i])
  {
    var h := Patched(g, id, mem);
    var d := if i == id then Emptied(g.pend[id], Slot) else g.pend[i];
    var e := if i == id then g.ids[id].(link := 0) else g.ids[i];
    assert EntryOk(g.mem, g.tokens, i, e, d) by {
      assert EntryOk(g.mem, g.tokens, i, g.ids[i], g.pend[i]);
    }
    forall k: Kind, t: nat | t in Of(d, k) ensures Steady(g.mem, g.tokens, h.mem, h.tokens, t) {
      assert t in Of(g.pend[i], k);
      WaitingToken(g, i, k, t);
      if t in g.pend[id].slots {
        WaitingToken(g, id, Slot, t);
      }
      PatchedPlace(g, id, mem, t);
    }
    EntryFrame(g.mem, g.tokens, h.mem, h.tokens, i, e, d);
  }

  /** What the patching leaves at the place of a token. */
  lemma PatchedPlace(g: Graph, id: string, mem: map<nat, nat>, t: nat)
    requires Sound(g) && id in g.ids && t < |g.tokens|
    requires Overwritten(g.mem, mem, Ats(g.tokens, g.pend[id].slots), g.ids[id].ptr)
    ensures g.tokens[t].at in mem
    ensures mem[g.tokens[t].at] == if t in g.pend[id].slots then g.ids[id].ptr else g.mem[g.tokens[t].at]
  {
    assert TokenOk(g, t);
    var c := g.pend[id].slots;
    if t in c {
      var j: nat :| j < |c| && c[j] == t;
      AtsAt(g.tokens, c, j);
    } else {
      OffChain(g, id, Slot, t);
    }
  }

  lemma OffChain(g: Graph, id: string, kind: Kind, t: nat)
    requires Sound(g) && id in g.ids && t < |g.tokens| && t !in Of(g.pend[id], kind)
    ensures g.tokens[t].at !in Ats(g.tokens, Of(g.pend[id], kind))
  {
    var c := Of(g.pend[id], kind);
    var pl := Ats(g.tokens, c);
    forall j: nat | j < |pl| ensures pl[j] != g.tokens[t].at {
      AtsAt(g.tokens, c, j);
      WaitingToken(g, id, kind, c[j]);
      assert c[j] < t || t < c[j];
    }
  }

  // ---------- relocating ----------

  /** Where an address goes when the n words at start move. */
  function Moved(a: nat, start: nat, n: nat, to: nat): nat {
    if start <= a < start + n then a - start + to else a
  }

  function MovedTokens(tokens: seq<Token>, start: nat, n: nat, to: nat): (r: seq<Token>)
    ensures |r| == |tokens|
  {
    seq(|tokens|, t requires 0 <= t < |tokens| => tokens[t].(at := Moved(tokens[t].at, start, n, to)))
  }

  function MovedFlist(fl: seq<Flist>, start: nat, n: nat, to: nat): (r: seq<Flist>)
    ensures |r| == |fl|
  {
    seq(|fl|, j requires 0 <= j < |fl| => fl[j].(ptr := Moved(fl[j].ptr, start, n, to)))
  }

  function MovedEntry(e: Ilist, start: nat, n: nat, to: nat): Ilist {
    e.(link := Moved(e.link, start, n, to), copy := Moved(e.copy, start, n, to),
       flist := MovedFlist(e.flist, start, n, to), ptr := Moved(e.ptr, start, n, to))
  }

  /** Every token's word arrived at the token's new place, and the links among
      them follow the places. */
  ghost predicate Relocated(g: Graph, h: Graph, start: nat, n: nat, to: nat) {
    && h.pend == g.pend
    && h.ids.Keys == g.ids.Keys
    && (forall id {:trigger h.ids[id]} :: id in g.ids ==> h.ids[id] == MovedEntry(g.ids[id], start, n, to))
    && h.tokens == MovedTokens(g.tokens, start, n, to)
    && 0 !in h.mem
    && (forall t: nat {:trigger g.tokens[t]} :: t < |g.tokens| ==> Arrived(g, h, t, start, n, to))
  }

  ghost predicate Arrived(g: Graph, h: Graph, t: nat, start: nat, n: nat, to: nat)
    requires t < |g.tokens| == |h.tokens|
  {
    var a, b := g.tokens[t].at, h.tokens[t].at;
    && a in g.mem && b in h.mem
    && (g.tokens[t].fate.Holds? ==> h.mem[b] == g.mem[a])
    && (g.tokens[t].fate == Pending && g.tokens[t].kind != Listed ==> h.mem[b] == Moved(g.mem[a], start, n, to))
  }

  /** A move of memory keeps every reference, provided that it goes to a place
      that none of them is registered at. */
  lemma RelocateSound(g: Graph, h: Graph, start: nat, n: nat, to: nat)
    requires Sound(g) && Relocated(g, h, start, n, to) && start > 0
    requires forall t: nat :: t < |g.tokens| ==> !(to <= g.tokens[t].at < to + n)
    ensures Sound(h)
  {
    MovedApart(g.tokens, start, n, to);
    forall t: nat | t < |h.tokens| ensures TokenOk(h, t) {
      assert TokenOk(g, t) && Arrived(g, h, t, start, n, to);
    }
    forall id | id in h.ids ensures EntryOk(h.mem, h.tokens, id, h.ids[id], h.pend[id]) {
      MovedEntryOk(g, h, id, start, n, to);
    }
  }

  lemma MovedEntryOk(g: Graph, h: Graph, id: string, start: nat, n: nat, to: nat)
    requires Sound(g) && Relocated(g, h, start, n, to) && start > 0 && id in g.ids
    ensures EntryOk(h.mem, h.tokens, id, h.ids[id], h.pend[id])
  {
    var c := g.pend[id];
    assert EntryOk(g.mem, g.tokens, id, g.ids[id], c);
    assert h.ids[id] == MovedEntry(g.ids[id], start, n, to);
    hide Sound;
    MovedWaiting(g.tokens, id, Slot, c.slots, start, n, to);
    MovedWaiting(g.tokens, id, Chained, c.copies, start, n, to);
    MovedWaiting(g.tokens, id, Listed, c.lists, start, n, to);
    MovedThread(g, h, id, Slot, g.ids[id].link, c.slots, start, n, to);
    MovedThread(g, h, id, Chained, g.ids[id].copy, c.copies, start, n, to);
  }

  lemma MovedWaiting(tokens: seq<Token>, id: string, kind: Kind, c: seq<nat>, start: nat, n: nat, to: nat)
    requires Waiting(tokens, id, kind, c)
    ensures Waiting(MovedTokens(tokens, start, n, to), id, kind, c)
    ensures forall j: nat ::
        j < |c| ==> Ats(MovedTokens(tokens, start, n, to), c)[j] == Moved(Ats(tokens, c)[j], start, n, to)
  {
    forall j: nat | j < |c|
      ensures Ats(MovedTokens(tokens, start, n, to), c)[j] == Moved(Ats(tokens, c)[j], start, n, to)
    {
      AtsAt(tokens, c, j);
      AtsAt(MovedTokens(tokens, start, n, to), c, j);
    }
  }

  lemma MovedThread(g: Graph, h: Graph, id: string, kind: Kind, head: nat, c: seq<nat>, start: nat, n: nat, to: nat)
    requires Relocated(g, h, start, n, to) && start > 0 && kind != Listed
    requires Waiting(g.tokens, id, kind, c) && Thread(g.mem, head, Ats(g.tokens, c))
    ensures Thread(h.mem, Moved(head, start, n, to), Ats(h.tokens, c))
  {
    var pl, ql := Ats(g.tokens, c), Ats(h.tokens, c);
    MovedWaiting(g.tokens, id, kind, c, start, n, to);
    forall j: nat | j <= |ql| ensures Under(ql, j) == Moved(Under(pl, j), start, n, to) {
    }
    forall j: nat | j < |ql| ensures Linked(h.mem, ql, j) {
      assert Linked(g.mem, pl, j);
      AtsAt(g.tokens, c, j);
      AtsAt(h.tokens, c, j);
      assert Arrived(g, h, c[j], start, n, to);
    }
  }

  lemma MovedApart(tokens: seq<Token>, start: nat, n: nat, to: nat)
    requires Apart(tokens)
    requires forall t: nat :: t < |tokens| ==> !(to <= tokens[t].at < to + n)
    ensures Apart(MovedTokens(tokens, start, n, to))
  {
  }
}
