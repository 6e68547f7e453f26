/** What the order of a reference and its object means for a reference whose
    object moves afterwards. */
module SoapOrder {
  import opened SoapGraph
  import opened SoapCopies
  import opened SoapRefs
  import opened SoapResolve
  import opened SoapCopying
  import opened SoapBlocks
  import opened SoapSave

  /** The slot has the address that its id is entered with. */
  ghost predicate UpToDate(g: Graph, t: nat) {
    t < |g.tokens| && g.tokens[t].id in g.ids && g.tokens[t].fate == Holds(g.ids[g.tokens[t].id].ptr)
  }

  /** A slot that was registered after its id was entered is in no chain, so
      that it survives the move of the blocks exactly when its object is in
      none of them. */
  lemma SettledSurvives(g: Graph, h: Graph, blks: seq<Blk>, to: nat, t: nat)
    requires UpToDate(g, t) && AllSeparate(blks) && PlaceApart(blks, to)
    requires h.tokens == HomeTokens(g.tokens, blks, to) && HomeIds(g.ids, h.ids, blks, to)
    ensures UpToDate(h, t) <==> forall j: nat :: j < |blks| ==> !InBlock(g.ids[g.tokens[t].id].ptr, blks, j)
  {
    var v := g.ids[g.tokens[t].id].ptr;
    var n := |blks|;
    assert blks[..n] == blks;
    hide Home, Total;
    if j: nat :| j < n && InBlock(v, blks, j) {
      HomeInside(v, blks, n, to, j);
      HomePlace(v, blks, to, j);
    } else {
      HomeElsewhere(v, blks, n, to);
    }
  }

  lemma HomePlace(v: nat, blks: seq<Blk>, to: nat, j: nat)
    requires AllSeparate(blks) && PlaceApart(blks, to) && j < |blks| && InBlock(v, blks, j)
    ensures Home(v, blks, to) != v
  {
    assert blks[..|blks|] == blks;
    HomeInside(v, blks, |blks|, to, j);
    TotalStep(blks, j);
    TotalPrefix(blks, j + 1);
    assert Within(v, blks[j].h, blks[j].n + HEADER);
    PlaceOff(Home(v, blks, to), blks, to, j);
  }

  /** An object in a block at 18, a reference to it, the move of the block to
      32 and a resolution that succeeds: the slot ends with the address that
      the object no longer has. */
  method StaleReference() returns (slot: nat, target: nat, status: Status)
    ensures status == SOAP_OK && slot == 18 && target == 32
  {
    hide TableOk, Sound, Carried, HomeTokens, HomeIds, Home, Total, Layout, Complete, Missing, SlotResolved,
        CopyResolved, Unused;
    var soap, b := ObjectInBlock();
    ghost var g := soap.G();
    OneTotal(b);
    assert "#1" in soap.ids;
    var r := SaveBlock(soap, b, 0, 32);
    OneMoved(g.ids, g.tokens, soap.ids, soap.tokens);
    OneLayout(soap.G(), 32);
    var _, h, j := soap.Lookup("#1");
    target := soap.iht[h][j].ptr;
    status := Resolve(soap);
    slot := soap.mem[8];
  }

  /** The object, and the reference to it, before the move. */
  method ObjectInBlock() returns (soap: Soap, b: Blist)
    ensures soap.Valid() && b.Valid(soap.mem) && fresh(soap) && fresh(b) && b.blks == [Blk(16, 1)] && b.size == 1
    ensures soap.tokens == [Token("#1", 8, Slot, Holds(18))] && soap.ids.Keys == {"#1"}
    ensures soap.ids["#1"].ptr == 18 && soap.ids["#1"].size == 1
    ensures Unused(soap.mem, 32, 1)
  {
    hide TableOk, Sound, Blocks, Stacked, Unused;
    var p;
    soap, b, p := NewArray();
    ghost var m := soap.mem;
    var r, status := soap.IdEnter("#1", p, 7, 1, 0);
    r, status := soap.IdLookup("#1", 8, 7, 1);
    OneKept(m, soap.mem, b.blks, b.ptr);
    OneUnused(m, soap.mem);
  }

  /** A slot at 8, and a block of one word at 18. */
  method NewArray() returns (soap: Soap, b: Blist, p: nat)
    ensures soap.Valid() && b.Valid(soap.mem) && fresh(soap) && fresh(b) && p == 18 && b.blks == [Blk(16, 1)]
        && b.size == 1
    ensures soap.tokens == [] && soap.ids == map[] && forall x: nat :: x in soap.mem <==> x == 8 || 16 <= x < 19
  {
    hide TableOk, Sound, Blocks, Stacked, Grew, Unused, Total;
    soap := new Soap(map[8 := 0]);
    b := new Blist();
    SmallMemory(soap.mem);
    ghost var m := soap.mem;
    p := PushBlock(soap, b, 1, 16);
    OneGrew(m, soap.mem);
    OneTotal(b);
  }

  lemma SmallMemory(m: map<nat, nat>)
    requires m == map[8 := 0]
    ensures Unused(m, 16, 3)
  {
  }

  lemma OneGrew(m: map<nat, nat>, mem: map<nat, nat>)
    requires m == map[8 := 0] && Grew(m, mem, 16, 3)
    ensures 8 in mem && forall x: nat :: x in mem <==> x == 8 || 16 <= x < 19
  {
    forall x: nat ensures x in mem <==> x == 8 || 16 <= x < 19 {
      assert Within(x, 16, 3) <==> 16 <= x < 19;
      assert x in m <==> x == 8;
    }
  }

  lemma OneTotal(b: Blist)
    requires b.blks == [Blk(16, 1)]
    ensures Total(b.blks) == 1
  {
    assert b.blks[..0] == [];
  }

  lemma OneKept(m: map<nat, nat>, mem: map<nat, nat>, blks: seq<Blk>, ptr: nat)
    requires blks == [Blk(16, 1)] && Blocks(m, blks) && Stacked(m, ptr, blks)
    requires forall a :: a in m && a != 8 ==> a in mem && mem[a] == m[a]
    ensures Blocks(mem, blks) && Stacked(mem, ptr, blks)
  {
    assert BlockAt(m, blks[0]) && OlderAt(m, blks, 0);
    assert OlderAt(mem, blks, 0);
    assert BlockAt(mem, blks[0]);
  }

  lemma OneUnused(m: map<nat, nat>, mem: map<nat, nat>)
    requires mem.Keys == m.Keys && forall x: nat :: x in m <==> x == 8 || 16 <= x < 19
    ensures Unused(mem, 32, 1)
  {
  }

  lemma OneMoved(ids0: map<string, Ilist>, tokens0: seq<Token>, ids: map<string, Ilist>, tokens: seq<Token>)
    requires tokens0 == [Token("#1", 8, Slot, Holds(18))] && "#1" in ids0 && ids0["#1"].ptr == 18
    requires HomeIds(ids0, ids, [Blk(16, 1)], 32) && tokens == HomeTokens(tokens0, [Blk(16, 1)], 32)
    ensures tokens == tokens0 && ids.Keys == ids0.Keys && ids["#1"].ptr == 32 && ids["#1"].size == ids0["#1"].size
  {
    OneBlock(8);
    OneBlock(18);
  }

  lemma OneBlock(a: nat)
    ensures Total([Blk(16, 1)]) == 1 && Home(a, [Blk(16, 1)], 32) == if a == 18 then 32 else a
  {
    assert [Blk(16, 1)][..0] == [];
  }

  lemma OneLayout(g: Graph, p: nat)
    requires Sound(g) && g.ids.Keys == {"#1"} && g.ids["#1"].ptr == p && g.ids["#1"].size == 1 && p != 0
        && HasPlace(g.mem, p, 1)
    requires |g.tokens| == 1 && g.tokens[0].kind == Slot
    ensures Layout(g) && Complete(g)
  {
    forall id, x: nat | id in g.ids && Within(x, g.ids[id].ptr, g.ids[id].size) ensures x in g.mem {
      assert id in {"#1"};
    }
    forall id | id in g.ids ensures g.ids[id].ptr != 0 {
      assert id in {"#1"};
    }
  }
}
