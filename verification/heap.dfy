/** The binary heap of tree nodes, ordered by weight, that the code-length
    builder keeps in place: entry 0 is a sentinel of weight 0. */
module Heap {

  ghost predicate Ordered(heap: seq<nat>, weight: seq<nat>, n: nat)
    requires InBounds(heap, weight, n)
  {
    forall i :: 2 <= i <= n ==> weight[heap[i / 2]] <= weight[heap[i]]
  }

  ghost predicate InBounds(heap: seq<nat>, weight: seq<nat>, n: nat) {
    && n < |heap| && 0 < |weight| && heap[0] == 0 && weight[0] == 0
    && forall i :: 1 <= i <= n ==> heap[i] < |weight| && weight[heap[i]] > 0
  }

  /** The nodes in the heap. */
  ghost function Nodes(heap: seq<nat>, n: nat): multiset<nat>
    requires n < |heap|
  {
    multiset(heap[1..n + 1])
  }

  /** The root has least weight. */
  lemma {:induction false} RootIsLeast(heap: seq<nat>, weight: seq<nat>, n: nat, i: nat)
    requires InBounds(heap, weight, n) && Ordered(heap, weight, n) && 1 <= i <= n
    ensures weight[heap[1]] <= weight[heap[i]]
    decreases i
  {
    if i != 1 {
      RootIsLeast(heap, weight, n, i / 2);
    }
  }

  lemma RootIsLeastNode(heap: seq<nat>, weight: seq<nat>, n: nat)
    requires InBounds(heap, weight, n) && Ordered(heap, weight, n) && 1 <= n
    ensures heap[1] in Nodes(heap, n)
    ensures forall x :: x in Nodes(heap, n) ==> x < |weight| && weight[heap[1]] <= weight[x]
  {
    assert heap[1] == heap[1..n + 1][0];
    forall x | x in Nodes(heap, n) ensures x < |weight| && weight[heap[1]] <= weight[x] {
      var i :| 0 <= i < n && heap[1..n + 1][i] == x;
      RootIsLeast(heap, weight, n, i + 1);
    }
  }

  lemma SwapKeepsNodes(heap: seq<nat>, n: nat, i: nat, j: nat)
    requires 1 <= i <= n < |heap| && 1 <= j <= n
    ensures Nodes(heap[i := heap[j]][j := heap[i]], n) == Nodes(heap, n)
  {
    var s := heap[1..n + 1];
    assert heap[i := heap[j]][j := heap[i]][1..n + 1] == s[i - 1 := s[j - 1]][j - 1 := s[i - 1]];
  }

  /** In order but for entry z against its parent. */
  ghost predicate OrderedButUp(v: seq<nat>, weight: seq<nat>, n: nat, z: nat)
    requires InBounds(v, weight, n)
  {
    && 1 <= z <= n
    && (forall i :: 2 <= i <= n && i != z ==> weight[v[i / 2]] <= weight[v[i]])
    && (forall i :: 2 <= i <= n && i / 2 == z && 2 <= z ==> weight[v[z / 2]] <= weight[v[i]])
  }

  /** In order but for entry z against its children. */
  ghost predicate OrderedButDown(v: seq<nat>, weight: seq<nat>, n: nat, z: nat)
    requires InBounds(v, weight, n)
  {
    && 1 <= z
    && (forall i :: 2 <= i <= n && i / 2 != z ==> weight[v[i / 2]] <= weight[v[i]])
    && (forall i :: 2 <= i <= n && i / 2 == z && 2 <= z ==> weight[v[z / 2]] <= weight[v[i]])
  }

  lemma UpStep(v: seq<nat>, weight: seq<nat>, n: nat, z: nat)
    requires InBounds(v, weight, n) && OrderedButUp(v, weight, n, z) && weight[v[z]] < weight[v[z / 2]]
    ensures z >= 2
    ensures var v' := v[z := v[z / 2]][z / 2 := v[z]];
            && InBounds(v', weight, n) && OrderedButUp(v', weight, n, z / 2) && Nodes(v', n) == Nodes(v, n)
  {
    SwapKeepsNodes(v, n, z, z / 2);
  }

  lemma DownStep(v: seq<nat>, weight: seq<nat>, n: nat, z: nat, y: nat)
    requires InBounds(v, weight, n) && OrderedButDown(v, weight, n, z) && 2 <= y <= n && y / 2 == z
    requires forall i :: 2 <= i <= n && i / 2 == z ==> weight[v[y]] <= weight[v[i]]
    requires weight[v[y]] <= weight[v[z]]
    ensures var v' := v[z := v[y]][y := v[z]];
            && InBounds(v', weight, n) && OrderedButDown(v', weight, n, y) && Nodes(v', n) == Nodes(v, n)
  {
    SwapKeepsNodes(v, n, z, y);
  }

  method UpHeap(heap: array<nat>, weight: array<nat>, z: nat)
    requires heap != weight && 1 <= z && InBounds(heap[..], weight[..], z) && Ordered(heap[..], weight[..], z - 1)
    modifies heap
    ensures InBounds(heap[..], weight[..], z) && Ordered(heap[..], weight[..], z)
    ensures Nodes(heap[..], z) == old(Nodes(heap[..], z))
  {
    hide Ordered, OrderedButUp, Nodes;
    ghost var v, w := heap[..], weight[..];
    var zz := z;
    var tmp := heap[zz];
    UpStart(v, w, z);
    while weight[tmp] < weight[heap[zz / 2]]
      invariant 1 <= zz <= z && |v| == heap.Length && weight[..] == w
      invariant v[zz] == tmp && forall i :: 0 <= i < heap.Length && i != zz ==> heap[i] == v[i]
      invariant InBounds(v, w, z) && OrderedButUp(v, w, z, zz) && Nodes(v, z) == old(Nodes(heap[..], z))
      decreases zz
    {
      assert heap[zz / 2] == v[zz / 2];
      UpStep(v, w, z, zz);
      v := v[zz := v[zz / 2]][zz / 2 := v[zz]];
      heap[zz] := heap[zz / 2];
      zz := zz / 2;
    }
    assert heap[zz / 2] == v[zz / 2];
    heap[zz] := tmp;
    assert heap[..] == v;
    UpEnd(v, w, z, zz);
  }

  lemma UpStart(v: seq<nat>, weight: seq<nat>, z: nat)
    requires 1 <= z && InBounds(v, weight, z) && Ordered(v, weight, z - 1)
    ensures OrderedButUp(v, weight, z, z)
  {
  }

  lemma UpEnd(v: seq<nat>, weight: seq<nat>, n: nat, z: nat)
    requires InBounds(v, weight, n) && OrderedButUp(v, weight, n, z) && weight[v[z / 2]] <= weight[v[z]]
    ensures Ordered(v, weight, n)
  {
  }

  method DownHeap(heap: array<nat>, weight: array<nat>, nHeap: nat)
    requires heap != weight && 1 < heap.Length && InBounds(heap[..], weight[..], nHeap)
    requires heap[1] < weight.Length && OrderedButDown(heap[..], weight[..], nHeap, 1)
    modifies heap
    ensures InBounds(heap[..], weight[..], nHeap) && Ordered(heap[..], weight[..], nHeap)
    ensures Nodes(heap[..], nHeap) == old(Nodes(heap[..], nHeap))
  {
    hide Ordered, OrderedButDown, Nodes;
    ghost var v, w := heap[..], weight[..];
    var zz := 1;
    var tmp := heap[zz];
    while true
      invariant 1 <= zz && (nHeap > 0 ==> zz <= nHeap) && zz < heap.Length && |v| == heap.Length && weight[..] == w
      invariant v[zz] == tmp && forall i :: 0 <= i < heap.Length && i != zz ==> heap[i] == v[i]
      invariant InBounds(v, w, nHeap) && OrderedButDown(v, w, nHeap, zz)
      invariant Nodes(v, nHeap) == old(Nodes(heap[..], nHeap))
      decreases heap.Length - zz
    {
      var yy := zz * 2;
      if yy > nHeap {
        DownLeaf(v, w, nHeap, zz);
        break;
      }
      if yy < nHeap && weight[heap[yy + 1]] < weight[heap[yy]] {
        yy := yy + 1;
      }
      SmallerChild(v, w, nHeap, zz, yy);
      if weight[tmp] < weight[heap[yy]] {
        DownEnd(v, w, nHeap, zz, yy);
        break;
      }
      DownStep(v, w, nHeap, zz, yy);
      v := v[zz := v[yy]][yy := v[zz]];
      heap[zz] := heap[yy];
      zz := yy;
    }
    heap[zz] := tmp;
    assert heap[..] == v;
  }

  lemma SmallerChild(v: seq<nat>, weight: seq<nat>, n: nat, z: nat, y: nat)
    requires InBounds(v, weight, n) && 1 <= z && 2 * z <= y <= n && y <= 2 * z + 1
    requires var x := if y == 2 * z then 2 * z + 1 else 2 * z;
             x <= n ==> weight[v[y]] <= weight[v[x]]
    ensures forall i :: 2 <= i <= n && i / 2 == z ==> weight[v[y]] <= weight[v[i]]
  {
  }

  lemma DownLeaf(v: seq<nat>, weight: seq<nat>, n: nat, z: nat)
    requires InBounds(v, weight, n) && OrderedButDown(v, weight, n, z) && z * 2 > n
    ensures Ordered(v, weight, n)
  {
  }

  lemma DownEnd(v: seq<nat>, weight: seq<nat>, n: nat, z: nat, y: nat)
    requires InBounds(v, weight, n) && OrderedButDown(v, weight, n, z) && 2 <= y <= n && y / 2 == z
    requires forall i :: 2 <= i <= n && i / 2 == z ==> weight[v[y]] <= weight[v[i]]
    requires weight[v[z]] <= weight[v[y]]
    ensures Ordered(v, weight, n)
  {
  }

  /** Takes the least node out. */
  method PopLeast(heap: array<nat>, weight: array<nat>, nHeap0: nat) returns (least: nat, nHeap: nat)
    requires heap != weight && 1 <= nHeap0 && InBounds(heap[..], weight[..], nHeap0)
    requires Ordered(heap[..], weight[..], nHeap0)
    modifies heap
    ensures nHeap == nHeap0 - 1
    ensures InBounds(heap[..], weight[..], nHeap) && Ordered(heap[..], weight[..], nHeap)
    ensures least in old(Nodes(heap[..], nHeap0))
    ensures Nodes(heap[..], nHeap) == old(Nodes(heap[..], nHeap0)) - multiset{least}
    ensures forall x :: x in old(Nodes(heap[..], nHeap0)) ==> x < weight.Length && weight[least] <= weight[x]
  {
    ghost var v := heap[..];
    RootIsLeastNode(v, weight[..], nHeap0);
    least := heap[1];
    heap[1] := heap[nHeap0];
    nHeap := nHeap0 - 1;
    TakeRoot(v, weight[..], nHeap0);
    assert heap[..] == v[1 := v[nHeap0]];
    DownHeap(heap, weight, nHeap);
  }

  lemma TakeRoot(v: seq<nat>, weight: seq<nat>, n: nat)
    requires 1 <= n && InBounds(v, weight, n) && Ordered(v, weight, n)
    ensures var v' := v[1 := v[n]];
            && InBounds(v', weight, n - 1) && OrderedButDown(v', weight, n - 1, 1)
            && Nodes(v', n - 1) == Nodes(v, n) - multiset{v[1]}
  {
    var v' := v[1 := v[n]];
    var s := v[1..n + 1];
    assert s == s[..n - 1] + [v[n]];
    if n == 1 {
      assert v'[1..n] == [];
    } else {
      assert v'[1..n] == s[..n - 1][0 := v[n]];
      assert s[..n - 1] == [v[1]] + s[1..n - 1];
      assert v'[1..n] == [v[n]] + s[1..n - 1];
    }
  }
}
