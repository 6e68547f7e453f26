/** The order that the two block sorts give to equal rotations, on the blocks
    where all of them are equal: the origin that is sent depends on the sort. */
module SortTies {
  import opened Words
  import opened Cyclic
  import opened Mtf
  import opened Rle
  import opened MainOrder
  import opened Compressor
  import FallbackSort
  import MainSort

  /** Main result: on one byte repeated the main sort finds the original
      rotation in the first place, with any budget, and the fallback sort
      finds it in the last. */
  method OriginsDiffer(c: byte, n: nat, budgetInit: nat) returns (mainOrigin: nat, fallbackOrigin: nat, budget: int)
    requires BZ_N_OVERSHOOT < n <= 900000
    ensures mainOrigin == 0 && fallbackOrigin == n - 1 && mainOrigin != fallbackOrigin && budget == budgetInit
  {
    hide IsBlockSort, Uniform;
    var sorter := new Sorter(n);
    var block := new byte[n + BZ_N_OVERSHOOT](_ => c);
    ghost var b := block[..n];
    assert Uniform(b) by {
      RepeatedIsUniform(b, c);
    }
    budget := MainSort.MainSort(sorter.ptr, block, sorter.quadrant, sorter.bhtab, n, budgetInit);
    mainOrigin := sorter.FindOrigin(block, n);
    FallbackSort.FallbackSort(sorter.ptr, sorter.eclass, sorter.bhtab, block, n);
    fallbackOrigin := sorter.FindOrigin(block, n);
  }

  lemma RepeatedIsUniform(b: seq<byte>, c: byte)
    requires forall i :: 0 <= i < |b| ==> b[i] == c
    ensures Uniform(b)
  {
  }

  // ---------- such blocks are stored ----------

  /** A run of 255 bytes 251 is stored as five bytes 251. */
  const LEVEL_BYTE: byte := 251

  /** The block and the length of the run in hand after n bytes 251. */
  function Stored(n: nat): (r: (seq<byte>, nat))
    ensures r.1 <= 255 && (r.1 == 0 <==> n == 0)
  {
    if n == 0 then ([], 0)
    else
      var (block, len) := Stored(n - 1);
      var ch := if len == 0 then NO_CHAR else LEVEL_BYTE as nat;
      (AddCharBlock(block, ch, len, LEVEL_BYTE), AddCharLen(ch, len, LEVEL_BYTE))
  }

  lemma {:induction false} StoredIs(n: nat)
    requires n > 0
    ensures Stored(n) == (Repeat(LEVEL_BYTE, (n - 1) / 255 * 5), (n - 1) % 255 + 1)
  {
    if n > 1 {
      StoredIs(n - 1);
      var k := (n - 2) / 255;
      assert Repeat(LEVEL_BYTE, k * 5) + Pair(LEVEL_BYTE, 255) == Repeat(LEVEL_BYTE, (k + 1) * 5);
    }
  }

  /** Bytes 251 in runs of 255 make a uniform block, which both sorts may be
      given. */
  lemma UniformStored(k: nat)
    requires k > 0
    ensures Stored(255 * k).1 == 255
    ensures var block := Stored(255 * k).0 + Pair(LEVEL_BYTE, 255);
            Uniform(block) && |block| == 5 * k && Expand(block, FRESH) == Repeat(LEVEL_BYTE, 255 * k)
  {
    hide Stored, Charged, Uniform;
    StoredIs(255 * k);
    assert (255 * k - 1) / 255 == k - 1;
    var block := Stored(255 * k).0 + Pair(LEVEL_BYTE, 255);
    RepeatedIsUniform(block, LEVEL_BYTE);
    StoredCharge(255 * k);
    FlushKeepsCharge(Stored(255 * k).0, LEVEL_BYTE as nat, 255, Repeat(LEVEL_BYTE, 255 * k));
    ChargedFlushed(block, Repeat(LEVEL_BYTE, 255 * k));
  }

  lemma ChargedFlushed(block: seq<byte>, input: seq<byte>)
    requires Charged(block, NO_CHAR, 0, input)
    ensures Expand(block, FRESH) == input
  {
  }

  lemma {:induction false} StoredCharge(n: nat)
    ensures Charged(Stored(n).0, if n == 0 then NO_CHAR else LEVEL_BYTE as nat, Stored(n).1, Repeat(LEVEL_BYTE, n))
    ensures n == 0 ==> Stored(n).0 == []
  {
    if n > 0 {
      StoredCharge(n - 1);
      var (block, len) := Stored(n - 1);
      var ch := if len == 0 then NO_CHAR else LEVEL_BYTE as nat;
      AddCharKeepsCharge(block, ch, len, Repeat(LEVEL_BYTE, n - 1), LEVEL_BYTE);
      assert Repeat(LEVEL_BYTE, n) == Repeat(LEVEL_BYTE, n - 1) + [LEVEL_BYTE];
    }
  }
}
