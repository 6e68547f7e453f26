/** References that a resolution lets pass although they lead nowhere, or to an
    object of another type. */
module SoapGaps {
  import opened SoapGraph
  import opened SoapCopies
  import opened SoapRefs
  import opened SoapResolve
  import opened SoapCopying

  // ---------- ids without an object ----------

  /** Some object begins at x. */
  ghost predicate Begins(g: Graph, x: nat) {
    exists id :: id in g.ids && g.ids[id].ptr != 0 && g.ids[id].ptr == x
  }

  /** The slot u is the one that waited for the same id before t. */
  ghost predicate WaitsBefore(g: Graph, u: nat, t: nat)
    requires t < |g.tokens|
  {
    && u < t && WaitsSlot(g, u, g.tokens[t].id)
    && forall v: nat :: u < v < t ==> !WaitsSlot(g, v, g.tokens[t].id)
  }

  /** Main result: after a resolution a slot that waited holds the address of an
      object if and only if its id was entered, or an object begins at the slot
      that waited before it for the same id. Both can be told before. */
  lemma AddressExactly(g0: Graph, g: Graph, t: nat)
    requires t < |g0.tokens| && WaitsSlot(g0, t, g0.tokens[t].id) && TableUnmoved(g0, g)
    requires forall u: nat :: u < |g0.tokens| && WaitsSlot(g0, u, g0.tokens[u].id) ==> SlotResolved(g0, g, u)
    ensures var k := g0.tokens[t];
            && k.id in g0.ids && k.at in g.mem
            && (Begins(g, g.mem[k.at]) <==>
              g0.ids[k.id].ptr != 0 || exists u: nat :: WaitsBefore(g0, u, t) && Begins(g0, g0.tokens[u].at))
  {
    var k := g0.tokens[t];
    assert SlotResolved(g0, g, t);
    SameBeginnings(g0, g);
    if g0.ids[k.id].ptr == 0 {
      SameWaiting(g0, g, k.id);
      assert LinkWord(g, t);
    }
  }

  lemma SameBeginnings(g0: Graph, g: Graph)
    requires TableUnmoved(g0, g)
    ensures forall x :: Begins(g, x) <==> Begins(g0, x)
  {
    forall x | Begins(g0, x) ensures Begins(g, x) {
      var id :| id in g0.ids && g0.ids[id].ptr != 0 && g0.ids[id].ptr == x;
      assert g.ids[id].ptr == x;
    }
  }

  /** What waits for an id without object still waits. */
  lemma SameWaiting(g0: Graph, g: Graph, id: string)
    requires TableUnmoved(g0, g) && id in g0.ids && g0.ids[id].ptr == 0
    requires forall u: nat :: u < |g0.tokens| && WaitsSlot(g0, u, g0.tokens[u].id) ==> SlotResolved(g0, g, u)
    ensures forall u: nat :: WaitsSlot(g, u, id) <==> WaitsSlot(g0, u, id)
    ensures forall u: nat :: WaitsSlot(g, u, id) ==> g.tokens[u].at == g0.tokens[u].at
  {
    hide LinkWord;
  }

  /** A reference that leads to another object: "x" is never entered and "#a" is,
      at the first of two slots that wait for "x". Every call succeeds, and the
      second slot holds the address of "#a", and "x" has no object still. */
  method WrongObject()
      returns (slot: nat, home: nat, ptr: nat, looked1: Status, looked2: Status, entered: Status, status: Status)
    ensures looked1 == looked2 == entered == status == SOAP_OK && slot == home == 8 && ptr == 0
  {
    hide TableOk, Sound, Missing, CopyResolved, LinkWord;
    var soap := new Soap(map[8 := 0, 9 := 0]);
    var r;
    r, looked1 := soap.IdLookup("x", 8, 7, 1);
    r, looked2 := soap.IdLookup("x", 9, 7, 1);
    home, entered := soap.IdEnter("#a", 8, 7, 1, 0);
    ghost var g := soap.G();
    assert soap.tokens == [Token("x", 8, Slot, Pending), Token("x", 9, Slot, Pending)];
    assert soap.ids.Keys == {"x", "#a"};
    OneAtSlot(g);
    status := Resolve(soap);
    assert g.tokens[0].fate == Pending && g.tokens[1].fate == Pending;
    TwoLinks(g, soap.G());
    slot := soap.mem[9];
    var _, h, j := soap.Lookup("x");
    ptr := soap.iht[h][j].ptr;
  }

  lemma OneAtSlot(g: Graph)
    requires g.ids.Keys == {"x", "#a"} && g.ids["x"].ptr == 0 && g.ids["#a"].ptr == 8 && g.ids["#a"].size == 1
    requires 8 in g.mem && forall t: nat :: t < |g.tokens| ==> g.tokens[t].kind == Slot
    ensures Layout(g) && Complete(g)
  {
    forall id, x: nat | id in g.ids && Within(x, g.ids[id].ptr, g.ids[id].size)
      ensures x in g.mem || g.ids[id].ptr == 0
    {
      assert id in {"x", "#a"};
    }
    forall id | id in g.ids && g.ids[id].ptr == 0 ensures id == "x" {
      assert id in {"x", "#a"};
    }
  }

  /** Two references to an id that is not a fragment and is never entered: the
      resolution succeeds, and the second slot is left with the address of the
      first. */
  method DanglingReference() returns (first: nat, second: nat, status: Status)
    ensures status == SOAP_OK && first == 0 && second == 8
  {
    hide TableOk, Sound, Missing, CopyResolved, LinkWord;
    var soap := new Soap(map[8 := 0, 9 := 0]);
    var r;
    r, status := soap.IdLookup("x", 8, 7, 1);
    r, status := soap.IdLookup("x", 9, 7, 1);
    ghost var g := soap.G();
    assert soap.tokens == [Token("x", 8, Slot, Pending), Token("x", 9, Slot, Pending)];
    assert soap.ids.Keys == {"x"};
    NothingThere(g);
    status := Resolve(soap);
    assert g.tokens[0].fate == Pending && g.tokens[1].fate == Pending;
    TwoLinks(g, soap.G());
    first, second := soap.mem[8], soap.mem[9];
  }

  lemma NothingThere(g: Graph)
    requires g.ids.Keys == {"x"} && g.ids["x"].ptr == 0
    requires forall t: nat :: t < |g.tokens| ==> g.tokens[t].kind == Slot
    ensures Layout(g) && Complete(g)
  {
    forall id | id in g.ids ensures g.ids[id].ptr == 0 && id == "x" {
      assert id in {"x"};
    }
  }

  lemma TwoLinks(g0: Graph, g: Graph)
    requires g0.tokens == [Token("x", 8, Slot, Pending), Token("x", 9, Slot, Pending)]
    requires "x" in g0.ids && g0.ids["x"].ptr == 0 && SlotResolved(g0, g, 0) && SlotResolved(g0, g, 1)
    ensures 8 in g.mem && g.mem[8] == 0 && 9 in g.mem && g.mem[9] == 8
  {
    assert LinkWord(g, 0) && LinkWord(g, 1);
    assert g.tokens[0] == g0.tokens[0] && g.tokens[1] == g0.tokens[1];
    assert WaitsSlot(g, 0, "x");
  }

  // ---------- objects of another type ----------

  /** Some place waits for a copy of the object. */
  ghost predicate CopyWaits(g: Graph, id: string) {
    exists t: nat :: Waits(g, t) && g.tokens[t].id == id
  }

  /** An object of another type than the reference said is accepted if and only
      if no place waits for a copy of it. */
  lemma MismatchExactly(g: Graph, id: string, t: int, n: nat)
    requires Sound(g) && id in g.ids && g.ids[id].ptr == 0 && g.ids[id].ty != t
    ensures EnterStatus(g.ids[id], t, n) == SOAP_OK <==> !CopyWaits(g, id)
    ensures EnterStatus(g.ids[id], t, n) == SOAP_HREF <==> CopyWaits(g, id)
  {
    var e, c := g.ids[id], g.pend[id];
    assert EntryOk(g.mem, g.tokens, id, e, c);
    if u: nat :| Waits(g, u) && g.tokens[u].id == id {
      StillPending(g, u);
    }
    if e.copy != 0 {
      WaitingToken(g, id, Chained, c.copies[|c.copies| - 1]);
      assert Waits(g, c.copies[|c.copies| - 1]);
    }
    if e.flist != [] {
      WaitingToken(g, id, Listed, c.lists[|c.lists| - 1]);
      assert Waits(g, c.lists[|c.lists| - 1]);
    }
  }

  /** A reference to an object of type 7, and an object of type 8 with the id:
      both are accepted, the resolution succeeds, and the slot holds the address
      of the object. */
  method WrongType() returns (slot: nat, expected: int, status: Status, entered: Status, referred: Status)
    ensures referred == entered == status == SOAP_OK && slot == 16 && expected == 7
  {
    hide TableOk, Sound, Missing, CopyResolved, LinkWord;
    var soap := new Soap(map[8 := 0, 16 := 0]);
    var r;
    r, referred := soap.IdLookup("#1", 8, 7, 1);
    r, entered := soap.IdEnter("#1", 16, 8, 1, 0);
    ghost var g := soap.G();
    assert soap.tokens == [Token("#1", 8, Slot, Pending)];
    OneObject(g);
    var _, h, j := soap.Lookup("#1");
    expected := soap.iht[h][j].ty;
    status := Resolve(soap);
    assert g.tokens[0].fate == Pending;
    slot := soap.mem[8];
  }

  lemma OneObject(g: Graph)
    requires g.ids.Keys == {"#1"} && g.ids["#1"].ptr == 16 && g.ids["#1"].size == 1 && 16 in g.mem
    requires forall t: nat :: t < |g.tokens| ==> g.tokens[t].kind == Slot
    ensures Layout(g) && Complete(g)
  {
    forall id, x: nat | id in g.ids && Within(x, g.ids[id].ptr, g.ids[id].size) ensures x in g.mem {
      assert id in {"#1"};
    }
    forall id | id in g.ids ensures g.ids[id].ptr != 0 {
      assert id in {"#1"};
    }
  }
}
