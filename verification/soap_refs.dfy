/** Multi-reference values (section 5.1 of SOAP 1.1): the id table of a
    message that is being parsed, the registration of references to ids that
    may be entered later, and their resolution at the end. */
module SoapRefs {
  import opened SoapGraph
  import opened SoapCopies

  const SOAP_IDHASH := 1999

  datatype Status = SOAP_OK | SOAP_HREF | SOAP_DUPLICATE_ID | SOAP_MISSING_ID

  /** The rolling hash of an id, in a 64-bit word. */
  function HashOf(s: string): nat {
    if |s| == 0 then 0 else (65599 * HashOf(s[..|s| - 1]) + s[|s| - 1] as nat) % 0x1_0000_0000_0000_0000
  }

  function Bucket(id: string): (h: nat)
    ensures h < SOAP_IDHASH
  {
    HashOf(id) % SOAP_IDHASH
  }

  ghost predicate InBucket(bucket: seq<Ilist>, id: string) {
    exists j: nat :: j < |bucket| && bucket[j].id == id
  }

  /** The hash table holds the entries, each in the bucket of its id and only
      once. */
  ghost predicate TableOk(iht: seq<seq<Ilist>>, ids: map<string, Ilist>) {
    && |iht| == SOAP_IDHASH
    && (forall i: nat, j: nat {:trigger iht[i][j]} :: i < |iht| && j < |iht[i]| ==>
          iht[i][j].id in ids && ids[iht[i][j].id] == iht[i][j] && Bucket(iht[i][j].id) == i)
    && (forall i: nat, j: nat, k: nat {:trigger iht[i][j], iht[i][k]} ::
       i < |iht| && j < k < |iht[i]| ==> iht[i][j].id != iht[i][k].id)
    && (forall id {:trigger InBucket(iht[Bucket(id)], id)} :: id in ids ==> InBucket(iht[Bucket(id)], id))
  }

  lemma TableReplace(iht: seq<seq<Ilist>>, ids: map<string, Ilist>, h: nat, j: nat, e: Ilist)
    requires TableOk(iht, ids) && h < |iht| && j < |iht[h]| && iht[h][j].id == e.id
    ensures TableOk(iht[h := iht[h][j := e]], ids[e.id := e])
  {
    hide HashOf;
    var iht': seq<seq<Ilist>>, ids': map<string, Ilist> := iht[h := iht[h][j := e]], ids[e.id := e];
    assert iht[h][j].id in ids && Bucket(e.id) == h;
    forall i: nat, k: nat | i < |iht'| && k < |iht'[i]|
      ensures iht'[i][k].id in ids' && ids'[iht'[i][k].id] == iht'[i][k] && Bucket(iht'[i][k].id) == i {
      assert iht[i][k].id in ids && Bucket(iht[i][k].id) == i;
      if i == h && k != j {
        assert iht[i][k].id != iht[h][j].id by {
          if k < j { assert iht[i][k].id != iht[h][j].id; } else { assert iht[h][j].id != iht[h][k].id; }
        }
      }
    }
    forall id | id in ids' ensures InBucket(iht'[Bucket(id)], id) {
      assert InBucket(iht[Bucket(id)], id);
      var k: nat :| k < |iht[Bucket(id)]| && iht[Bucket(id)][k].id == id;
      assert iht'[Bucket(id)][k].id == id;
    }
  }

  lemma TableAdd(iht: seq<seq<Ilist>>, ids: map<string, Ilist>, e: Ilist)
    requires TableOk(iht, ids) && e.id !in ids
    ensures TableOk(iht[Bucket(e.id) := [e] + iht[Bucket(e.id)]], ids[e.id := e])
  {
    hide HashOf, Bucket;
    var h := Bucket(e.id);
    var iht': seq<seq<Ilist>>, ids': map<string, Ilist> := iht[h := [e] + iht[h]], ids[e.id := e];
    forall i: nat, k: nat | i < |iht'| && k < |iht'[i]|
      ensures iht'[i][k].id in ids' && ids'[iht'[i][k].id] == iht'[i][k] && Bucket(iht'[i][k].id) == i {
      if i != h {
        assert iht[i][k].id in ids;
      } else if k > 0 {
        assert iht[i][k - 1].id in ids && iht'[i][k] == iht[i][k - 1];
      }
    }
    forall i: nat, j: nat, k: nat | i < |iht'| && j < k < |iht'[i]| ensures iht'[i][j].id != iht'[i][k].id {
      if i != h {
        assert iht[i][j].id != iht[i][k].id;
      } else {
        assert iht'[i][k] == iht[i][k - 1];
        if j > 0 {
          assert iht'[i][j] == iht[i][j - 1];
          assert iht[i][j - 1].id != iht[i][k - 1].id;
        } else {
          assert iht[i][k - 1].id in ids;
        }
      }
    }
    forall id | id in ids' ensures InBucket(iht'[Bucket(id)], id) {
      if id == e.id {
        assert iht'[h][0].id == id;
      } else {
        assert InBucket(iht[Bucket(id)], id);
        var k: nat :| k < |iht[Bucket(id)]| && iht[Bucket(id)][k].id == id;
        assert Bucket(id) == h ==> iht'[h][k + 1] == iht[h][k];
        assert iht'[Bucket(id)][if Bucket(id) == h then k + 1 else k].id == id;
      }
    }
  }

  ghost predicate Unused(mem: map<nat, nat>, a: nat, n: nat) {
    forall x: nat {:trigger Within(x, a, n)} :: Within(x, a, n) ==> x !in mem
  }

  /** Memory that has n more words at a. */
  ghost predicate Grew(m: map<nat, nat>, mem: map<nat, nat>, a: nat, n: nat) {
    && a != 0
    && (forall x: nat {:trigger Within(x, a, n)} :: Within(x, a, n) ==> x !in m && x in mem)
    && (forall x: nat {:trigger x in m} {:trigger mem[x]} :: x in m ==> x in mem && mem[x] == m[x])
    && (forall x: nat {:trigger x in mem} :: x in mem && x !in m ==> Within(x, a, n))
  }

  /** The same ids at the same places. */
  ghost predicate SameNames(a: seq<seq<Ilist>>, b: seq<seq<Ilist>>) {
    && |a| == |b|
    && (forall i: nat :: i < |a| ==> |a[i]| == |b[i]|)
    && (forall i: nat, j: nat {:trigger a[i][j]} {:trigger b[i][j]} ::
       i < |a| && j < |a[i]| ==> a[i][j].id == b[i][j].id)
  }

  /** What becomes of entering an object under an id that is known. */
  function EnterStatus(e: Ilist, t: int, n: nat): Status {
    if (e.ty != t || e.size != n) && (e.copy != 0 || e.flist != []) then SOAP_HREF
    else if e.ptr != 0 then SOAP_DUPLICATE_ID
    else SOAP_OK
  }

  class Soap {
    var iht: seq<seq<Ilist>>
    var mem: map<nat, nat>
    /** The id that the last error is about. */
    var id: string
    ghost var ids: map<string, Ilist>
    ghost var pend: map<string, Chains>
    ghost var tokens: seq<Token>

    ghost function G(): Graph
      reads this`mem, this`ids, this`pend, this`tokens
    {
      Graph(mem, ids, pend, tokens)
    }

    ghost predicate Valid()
      reads this`iht, this`mem, this`ids, this`pend, this`tokens
    {
      TableOk(iht, ids) && Sound(G())
    }

    constructor (mem: map<nat, nat>)
      requires 0 !in mem
      ensures Valid() && this.mem == mem && tokens == [] && ids == map[]
    {
      this.mem := mem;
      iht := seq(SOAP_IDHASH, _ => []);
      id := "";
      ids, pend, tokens := map[], map[], [];
    }

    /** The chain of a bucket is searched for the id. */
    method Lookup(name: string) returns (found: bool, h: nat, j: nat)
      requires TableOk(iht, ids)
      ensures found == (name in ids) && h == Bucket(name) && h < |iht|
      ensures found ==> j < |iht[h]| && iht[h][j].id == name && iht[h][j] == ids[name]
    {
      hide HashOf;
      h := SoapHash(name);
      j := 0;
      while j < |iht[h]|
        invariant forall k: nat :: k < j && k < |iht[h]| ==> iht[h][k].id != name
      {
        if iht[h][j].id == name {
          return true, h, j;
        }
        j := j + 1;
      }
      found := false;
      assert !InBucket(iht[Bucket(name)], name);
    }

    /** An update of the entry at a place of the table. */
    method SetAt(h: nat, j: nat, e: Ilist)
      requires TableOk(iht, ids) && h < |iht| && j < |iht[h]| && iht[h][j].id == e.id
      modifies this`iht, this`ids
      ensures TableOk(iht, ids) && ids == old(ids)[e.id := e] && SameNames(old(iht), iht)
      ensures iht == old(iht)[h := old(iht)[h][j := e]]
    {
      TableReplace(iht, ids, h, j, e);
      iht := iht[h := iht[h][j := e]];
      ids := ids[e.id := e];
    }

    /** A new entry in front of its bucket. */
    method Add(e: Ilist)
      requires TableOk(iht, ids) && e.id !in ids
      modifies this`iht, this`ids
      ensures TableOk(iht, ids) && ids == old(ids)[e.id := e]
    {
      hide TableOk, HashOf;
      TableAdd(iht, ids, e);
      var h := SoapHash(e.id);
      assert |iht| == SOAP_IDHASH by { TableSize(iht, ids); }
      iht := iht[h := [e] + iht[h]];
      ids := ids[e.id := e];
    }

    /** A reference to an id, from the pointer slot at p. */
    method IdLookup(name: string, p: nat, t: int, n: nat) returns (r: nat, status: Status)
      requires Valid() && (p != 0 ==> p in mem && Unregistered(G(), p))
      modifies this
      ensures Valid()
      ensures p == 0 || name == "" ==> r == p && status == SOAP_OK && G() == old(G())
      ensures p != 0 && name != "" ==>
                if name in old(ids) && old(ids)[name].ptr != 0 && old(ids)[name].ty != t
                then r == 0 && status == SOAP_HREF && id == name && G() == old(G())
                else
                  && r == p && status == SOAP_OK && name in ids
                  && tokens ==
                     old(tokens) + [Token(name, p, Slot, if ids[name].ptr != 0 then Holds(ids[name].ptr) else Pending)]
                  && ids[name].ptr == (if name in old(ids) then old(ids)[name].ptr else 0)
                  && ids.Keys == old(ids).Keys + {name}
                  && (name !in old(ids) ==> ids[name] == Ilist(name, t, n, p, 0, [], 0))
      ensures forall i :: i in old(ids) ==> ids[i] == old(ids)[i].(link := ids[i].link)
      ensures mem.Keys == old(mem).Keys && forall a :: a in old(mem) && a != p ==> mem[a] == old(mem)[a]
    {
      hide TableOk, Sound, HashOf;
      if p == 0 || name == "" {
        return p, SOAP_OK;
      }
      var found, h, j := Lookup(name);
      ghost var g := G();
      if !found {
        FirstReferenceSound(g, name, p, t, n);
        Add(Ilist(name, t, n, p, 0, [], 0));
        mem := mem[p := 0];
        pend := pend[name := Chains([|tokens|], [], [])];
        tokens := tokens + [Token(name, p, Slot, Pending)];
        assert G() == FirstReference(g, name, p, t, n);
      } else if iht[h][j].ptr != 0 {
        if iht[h][j].ty != t {
          id := name;
          return 0, SOAP_HREF;
        }
        SettleSound(g, name, p);
        mem := mem[p := iht[h][j].ptr];
        tokens := tokens + [Token(name, p, Slot, Holds(ids[name].ptr))];
        assert G() == Settle(g, name, p);
      } else {
        SoundKeys(g);
        PushSound(g, name, Slot, p, Flist(0, p, 0));
        var q := iht[h][j].link;
        SetAt(h, j, iht[h][j].(link := p));
        mem := mem[p := q];
        pend := pend[name := Grown(pend[name], Slot, |tokens|)];
        tokens := tokens + [Token(name, p, Slot, Pending)];
        assert G() == Push(g, name, Slot, p, Flist(0, p, 0));
      }
      return p, SOAP_OK;
    }

    /** Memory from the allocator, which chooses the spare words. */
    method Malloc(n: nat, spare: nat) returns (p: nat)
      requires Sound(G()) && spare != 0 && Unused(mem, spare, n)
      modifies this`mem
      ensures Sound(G()) && p == spare && Grew(old(mem), mem, spare, n)
    {
      hide Sound;
      ghost var g := G();
      var k := 0;
      while k < n
        invariant 0 <= k <= n && Grew(g.mem, mem, spare, k)
        modifies this`mem
      {
        assert Within(spare + k, spare, n);
        GrewMore(g.mem, mem, spare, k);
        mem := mem[spare + k := 0];
        k := k + 1;
      }
      GrewSound(g, mem, spare, n);
      assert G() == g.(mem := mem);
      p := spare;
    }

    /** The element with the id, at p, or at the spare memory that the
        allocator gives out when there is none. */
    method IdEnter(name: string, p: nat, t: int, n: nat, spare: nat) returns (r: nat, status: Status)
      requires Valid() && (p == 0 ==> spare != 0 && Unused(mem, spare, n))
      modifies this
      ensures Valid() && tokens == old(tokens)
      ensures var at := if p == 0 then spare else p;
              if name == "" then r == at && status == SOAP_OK && ids == old(ids)
              else if name !in old(ids) then
                r == at && status == SOAP_OK && ids == old(ids)[name := Ilist(name, t, n, 0, 0, [], at)]
              else
                var e := old(ids)[name];
                && status == EnterStatus(e, t, n)
                && if status != SOAP_OK then r == 0 && id == name && ids == old(ids)
                   else r == at && ids == old(ids)[name := e.(size := n, ptr := at)]
      ensures if p == 0 then Grew(old(mem), mem, spare, n) else mem == old(mem)
      ensures forall a :: a in old(mem) ==> a in mem && mem[a] == old(mem)[a]
    {
      hide TableOk, Sound, HashOf;
      var at := p;
      if p == 0 {
        at := Malloc(n, spare);
      }
      if name == "" {
        return at, SOAP_OK;
      }
      var found, h, j := Lookup(name);
      ghost var g := G();
      if !found {
        var e := Ilist(name, t, n, 0, 0, [], at);
        NewEntrySound(g, e);
        Add(e);
        pend := pend[name := Chains([], [], [])];
        assert G() == NewEntry(g, e);
        return at, SOAP_OK;
      }
      var e := iht[h][j];
      if (e.ty != t || e.size != n) && (e.copy != 0 || e.flist != []) {
        id := name;
        return 0, SOAP_HREF;
      } else if e.ptr != 0 {
        id := name;
        return 0, SOAP_DUPLICATE_ID;
      }
      SetEntrySound(g, e.(size := n, ptr := at));
      SetAt(h, j, e.(size := n, ptr := at));
      assert G() == SetEntry(g, e.(size := n, ptr := at));
      return at, SOAP_OK;
    }

    /** A reference by value: the object with the id is to be copied to p. */
    method IdForward(name: string, p: nat, len: nat, st: int, tt: int, n: nat) returns (r: nat, status: Status)
      requires Valid() && (p != 0 ==> p in mem && Unregistered(G(), p))
      modifies this
      ensures Valid()
      ensures p == 0 || name == "" ==> r == p && status == SOAP_OK && G() == old(G())
      ensures p != 0 && name != "" ==>
                if name in old(ids) && (old(ids)[name].ty != st || old(ids)[name].size != n)
                then r == 0 && status == SOAP_HREF && id == name && G() == old(G())
                else
                  && r == p && status == SOAP_OK && name in ids && ids[name].size == n
                  && tokens ==
                     old(tokens) + [Token(name, p, if n < 1 || name[0] != '#' then Listed else Chained, Pending)]
                  && ids[name].ptr == (if name in old(ids) then old(ids)[name].ptr else 0)
                  && ids.Keys == old(ids).Keys + {name}
      ensures mem.Keys == old(mem).Keys && forall a :: a in old(mem) && a != p ==> mem[a] == old(mem)[a]
    {
      hide TableOk, Sound, HashOf;
      if p == 0 || name == "" {
        return p, SOAP_OK;
      }
      var found, h, j := Lookup(name);
      if !found {
        var e := Ilist(name, st, n, 0, 0, [], 0);
        NewEntrySound(G(), e);
        ghost var g' := NewEntry(G(), e);
        Add(e);
        pend := pend[name := Chains([], [], [])];
        assert G() == g';
        found, h, j := Lookup(name);
      } else if iht[h][j].ty != st || iht[h][j].size != n {
        id := name;
        return 0, SOAP_HREF;
      }
      Forward(h, j, p, Flist(tt, p, len), n);
      return p, SOAP_OK;
    }

    /** Puts the place at the head of the chain or list of the entry. */
    method Forward(h: nat, j: nat, p: nat, f: Flist, n: nat)
      requires Valid() && h < |iht| && j < |iht[h]| && iht[h][j].id in ids && iht[h][j].id != ""
      requires p in mem && Unregistered(G(), p) && f.ptr == p
      modifies this`iht, this`mem, this`ids, this`pend, this`tokens
      ensures Valid()
      ensures var name := old(iht)[h][j].id;
              G() == Push(old(G()), name, if n < 1 || name[0] != '#' then Listed else Chained, p, f)
    {
      hide TableOk, Sound, HashOf;
      ghost var g := G();
      SoundKeys(g);
      var e := iht[h][j];
      TableEntry(iht, ids, h, j);
      if n < 1 || e.id[0] != '#' {
        PushSound(g, e.id, Listed, p, f);
        SetAt(h, j, e.(flist := e.flist + [f]));
        pend := pend[e.id := Grown(pend[e.id], Listed, |tokens|)];
        tokens := tokens + [Token(e.id, p, Listed, Pending)];
        assert G() == Push(g, e.id, Listed, p, f);
      } else {
        PushSound(g, e.id, Chained, p, f);
        mem := mem[p := e.copy];
        SetAt(h, j, e.(copy := p));
        pend := pend[e.id := Grown(pend[e.id], Chained, |tokens|)];
        tokens := tokens + [Token(e.id, p, Chained, Pending)];
        assert G() == Push(g, e.id, Chained, p, f);
      }
    }

    /** The program stores a word of its own, away from what is registered. */
    method Store(a: nat, v: nat)
      requires Valid() && a in mem
      requires forall t: nat :: t < |tokens| && tokens[t].fate != Copied ==> tokens[t].at != a
      modifies this`mem
      ensures Valid() && mem == old(mem)[a := v]
    {
      hide TableOk, Sound;
      SoundKeys(G());
      MemorySound(G(), mem[a := v]);
      ghost var g := G();
      mem := mem[a := v];
      assert G() == g.(mem := g.mem[a := v]);
    }
  }

  /** The first reference to an id makes its entry. */
  function FirstReference(g: Graph, name: string, p: nat, t: int, n: nat): Graph {
    Graph(g.mem[p := 0], g.ids[name := Ilist(name, t, n, p, 0, [], 0)], g.pend[name := Chains([|g.tokens|], [], [])],
      g.tokens + [Token(name, p, Slot, Pending)])
  }

  lemma FirstReferenceSound(g: Graph, name: string, p: nat, t: int, n: nat)
    requires Sound(g) && name !in g.ids && name != "" && p in g.mem && Unregistered(g, p)
    ensures Sound(FirstReference(g, name, p, t, n))
  {
    hide Sound;
    var e := Ilist(name, t, n, 0, 0, [], 0);
    NewEntrySound(g, e);
    var h := NewEntry(g, e);
    PushSound(h, name, Slot, p, Flist(0, p, 0));
    var k := Push(h, name, Slot, p, Flist(0, p, 0));
    assert k.ids == g.ids[name := e.(link := p)];
    assert [] + [|g.tokens|] == [|g.tokens|];
    assert k.pend == g.pend[name := Chains([|g.tokens|], [], [])];
  }

  lemma TableEntry(iht: seq<seq<Ilist>>, ids: map<string, Ilist>, h: nat, j: nat)
    requires TableOk(iht, ids) && h < |iht| && j < |iht[h]|
    ensures iht[h][j].id in ids && ids[iht[h][j].id] == iht[h][j]
  {
  }

  lemma TableSize(iht: seq<seq<Ilist>>, ids: map<string, Ilist>)
    requires TableOk(iht, ids)
    ensures |iht| == SOAP_IDHASH
  {
  }

  lemma SoundKeys(g: Graph)
    requires Sound(g)
    ensures g.pend.Keys == g.ids.Keys && 0 !in g.mem
  {
  }

  lemma GrewMore(m: map<nat, nat>, mem: map<nat, nat>, a: nat, k: nat)
    requires Grew(m, mem, a, k) && a + k !in m
    ensures Grew(m, mem[a + k := 0], a, k + 1)
  {
    var mem' := mem[a + k := 0];
    forall x: nat | Within(x, a, k + 1) ensures x !in m && x in mem' {
      assert Within(x, a, k) || x == a + k;
    }
    forall x: nat | x in mem' && x !in m ensures Within(x, a, k + 1) {
      assert x == a + k || Within(x, a, k);
    }
  }

  /** Fresh memory disturbs nothing. */
  lemma GrewSound(g: Graph, mem: map<nat, nat>, a: nat, n: nat)
    requires Sound(g) && Grew(g.mem, mem, a, n)
    ensures Sound(g.(mem := mem))
  {
    hide Sound;
    SoundKeys(g);
    assert 0 !in mem;
    MemorySound(g, mem);
  }

  /** The hash, one character at a time. */
  method SoapHash(s: string) returns (h: nat)
    ensures h == Bucket(s)
  {
    var w := 0;
    var i := 0;
    while i < |s|
      invariant 0 <= i <= |s| && w == HashOf(s[..i])
    {
      assert s[..i + 1][..i] == s[..i];
      w := (65599 * w + s[i] as nat) % 0x1_0000_0000_0000_0000;
      i := i + 1;
    }
    assert s[..|s|] == s;
    h := w % SOAP_IDHASH;
  }
}
