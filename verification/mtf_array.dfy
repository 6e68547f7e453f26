/** The decoder's move-to-front list: 256 entries kept as 16 sublists of 16,
    sliding down through 4096 cells. It behaves as the plain list. */
module MtfArray {
  import opened Mtf

  const MTFA_SIZE := 4096
  const MTFL_SIZE := 16
  const LISTS := 16

  /** Sublists in order, apart and inside the array. */
  ghost predicate Apart(base: seq<int>) {
    && |base| == LISTS && 0 <= base[0] && base[15] + MTFL_SIZE <= MTFA_SIZE
    && forall l :: 0 <= l < 15 ==> base[l] + MTFL_SIZE <= base[l + 1]
  }

  lemma {:induction false} ApartFar(base: seq<int>, k: nat, l: nat)
    requires Apart(base) && k <= l < LISTS
    ensures base[k] + MTFL_SIZE * (l - k) <= base[l]
    decreases l
  {
    if k != l {
      ApartFar(base, k, l - 1);
    }
  }

  lemma ApartInside(base: seq<int>)
    requires Apart(base)
    ensures forall l :: 0 <= l < LISTS ==> MTFL_SIZE * l <= base[l] <= MTFA_SIZE - MTFL_SIZE * (LISTS - l)
    ensures forall k, l :: 0 <= k < l < LISTS ==> base[k] + MTFL_SIZE <= base[l]
  {
    forall l | 0 <= l < LISTS
      ensures MTFL_SIZE * l <= base[l] <= MTFA_SIZE - MTFL_SIZE * (LISTS - l)
    {
      ApartFar(base, 0, l);
      ApartFar(base, l, 15);
    }
    forall k, l | 0 <= k < l < LISTS ensures base[k] + MTFL_SIZE <= base[l] {
      ApartFar(base, k, l);
    }
  }

  /** Where entry k is stored. */
  function Cell(base: seq<int>, k: int): int
    requires |base| == LISTS && 0 <= k < 256
  {
    base[k / MTFL_SIZE] + k % MTFL_SIZE
  }

  lemma CellIs(base: seq<int>, l: nat, j: nat)
    requires |base| == LISTS && l < LISTS && j < MTFL_SIZE
    ensures Cell(base, MTFL_SIZE * l + j) == base[l] + j
  {
  }

  /** Cells keep the order of the entries, and neighbours of a sublist are
      neighbours. */
  lemma CellOrder(base: seq<int>, j: int, k: int)
    requires Apart(base) && 0 <= j <= k < 256
    ensures j <= Cell(base, j) && Cell(base, j) + (k - j) <= Cell(base, k) < MTFA_SIZE
    ensures k == j + 1 && k % MTFL_SIZE != 0 ==> Cell(base, k) == Cell(base, j) + 1
    ensures k < MTFL_SIZE ==> Cell(base, k) == base[0] + k
  {
    ApartFar(base, j / MTFL_SIZE, k / MTFL_SIZE);
    ApartInside(base);
  }

  /** The cells hold the entries of the list below hi. */
  ghost predicate Holds(cells: seq<nat>, base: seq<int>, list: seq<nat>, hi: int)
    requires |base| == LISTS && |list| == 256 && hi <= 256
  {
    forall k :: 0 <= k < hi ==> 0 <= Cell(base, k) < |cells| && cells[Cell(base, k)] == list[k]
  }

  /** The shift inside the first sublist is a move to the front. */
  lemma NearHolds(before: seq<nat>, after: seq<nat>, base: seq<int>, list: seq<nat>, nn: nat)
    requires |before| == |after| == MTFA_SIZE && Apart(base) && |list| == 256 && nn < MTFL_SIZE
    requires Holds(before, base, list, 256)
    requires forall x :: 0 <= x < MTFA_SIZE && (x < base[0] || base[0] + nn < x) ==> after[x] == before[x]
    requires 0 <= base[0] && base[0] + nn < MTFA_SIZE
    requires forall x :: base[0] < x <= base[0] + nn ==> after[x] == before[x - 1]
    requires after[base[0]] == list[nn]
    ensures Holds(after, base, MoveToFront(list, nn), 256)
  {
    hide Cell;
    var next := MoveToFront(list, nn);
    CellOrder(base, 0, nn);
    forall k | 0 <= k < 256 ensures 0 <= Cell(base, k) < MTFA_SIZE && after[Cell(base, k)] == next[k] {
      CellOrder(base, 0, k);
      CellOrder(base, k, k);
      if nn < k {
        CellOrder(base, nn, k);
      } else if k > 0 {
        CellOrder(base, k - 1, k);
        assert before[Cell(base, k - 1)] == list[k - 1];
      }
    }
  }

  /** The bases while DecodeFar works on sublist l, coming down from sublist
      top: top has closed up, those between have slid. */
  function Sliding(base: seq<int>, top: nat, l: nat): (b: seq<int>)
    requires |base| == LISTS && l <= top < LISTS
    ensures |b| == LISTS
  {
    seq(LISTS, k requires 0 <= k < LISTS =>
      if k == top then (if l == top then base[k] + 1 else base[k])
      else if l < k < top then base[k] - 1 else base[k])
  }

  lemma SlidingStart(base: seq<int>, top: nat)
    requires |base| == LISTS && top < LISTS
    ensures Sliding(base, top, top) == base[top := base[top] + 1]
  {
  }

  lemma SlidingStep(base: seq<int>, top: nat, l: nat)
    requires |base| == LISTS && 0 < l <= top < LISTS
    ensures var b := Sliding(base, top, l);
            && b[l] - 1 == NewCell(base, top, MTFL_SIZE * l) && b[l - 1] == base[l - 1]
            && Sliding(base, top, l - 1) == b[l := b[l] - 1]
  {
  }

  /** Where the new entry k goes: one cell down, below sublist top. */
  function NewCell(base: seq<int>, top: nat, k: int): int
    requires |base| == LISTS && 0 <= k < 256
  {
    Cell(base, k) - if k < MTFL_SIZE * top then 1 else 0
  }

  /** The new list is in place after the first entry of sublist l; the old one
      is intact before sublist l. */
  ghost predicate FarState(cells: seq<nat>, base: seq<int>, list: seq<nat>, nn: nat, l: nat) {
    && |cells| == MTFA_SIZE && Apart(base) && 0 < base[0] && |list| == 256 && MTFL_SIZE <= nn < 256
    && l <= nn / MTFL_SIZE
    && Holds(cells, base, list, MTFL_SIZE * l)
    && forall k :: MTFL_SIZE * l < k < 256 ==>
         var x := NewCell(base, nn / MTFL_SIZE, k);
         0 <= x < MTFA_SIZE && cells[x] == MoveToFront(list, nn)[k]
  }

  lemma FarStart(cells: seq<nat>, after: seq<nat>, base: seq<int>, list: seq<nat>, nn: nat)
    requires |cells| == |after| == MTFA_SIZE && Apart(base) && 0 < base[0] && |list| == 256 && MTFL_SIZE <= nn < 256
    requires Holds(cells, base, list, 256)
    requires var first, last := Cell(base, nn / MTFL_SIZE * MTFL_SIZE), Cell(base, nn);
             && (forall x :: 0 <= x < MTFA_SIZE && (x <= first || last < x) ==> after[x] == cells[x])
             && (forall x :: first < x <= last ==> 0 < x < MTFA_SIZE && after[x] == cells[x - 1])
    ensures FarState(after, base, list, nn, nn / MTFL_SIZE)
  {
    hide Cell;
    var top := nn / MTFL_SIZE;
    var first := top * MTFL_SIZE;
    forall k | 0 <= k < 256
      ensures 0 <= Cell(base, k) < MTFA_SIZE
      ensures k < first ==> after[Cell(base, k)] == list[k]
      ensures first < k ==> after[Cell(base, k)] == MoveToFront(list, nn)[k]
    {
      if k < first {
        CellOrder(base, k, first);
      } else if k == first {
        CellOrder(base, k, k);
      } else if k <= nn {
        CellOrder(base, first, k);
        CellOrder(base, k, nn);
        CellOrder(base, k - 1, k);
        assert cells[Cell(base, k - 1)] == list[k - 1];
      } else {
        CellOrder(base, nn, k);
      }
    }
  }

  lemma FarStep(cells: seq<nat>, base: seq<int>, list: seq<nat>, nn: nat, l: nat)
    requires 0 < l && FarState(cells, base, list, nn, l)
    ensures var x := NewCell(base, nn / MTFL_SIZE, MTFL_SIZE * l);
            && 0 <= x < MTFA_SIZE && 0 <= base[l - 1] + MTFL_SIZE - 1 < MTFA_SIZE
            && FarState(cells[x := cells[base[l - 1] + MTFL_SIZE - 1]], base, list, nn, l - 1)
  {
    hide Cell;
    var top, next := nn / MTFL_SIZE, MoveToFront(list, nn);
    var x, y := NewCell(base, top, MTFL_SIZE * l), MTFL_SIZE * l - 1;
    CellIs(base, l - 1, MTFL_SIZE - 1);
    CellOrder(base, y, MTFL_SIZE * l);
    var after := cells[x := cells[Cell(base, y)]];
    assert cells[Cell(base, y)] == list[y] == next[MTFL_SIZE * l];
    forall k | MTFL_SIZE * (l - 1) < k < 256
      ensures 0 <= NewCell(base, top, k) < MTFA_SIZE && after[NewCell(base, top, k)] == next[k]
    {
      if k < MTFL_SIZE * l {
        CellOrder(base, k - 1, k);
        CellOrder(base, k, y);
        assert cells[Cell(base, k - 1)] == list[k - 1];
      } else if k > MTFL_SIZE * l {
        CellOrder(base, MTFL_SIZE * l, k);
      }
    }
    forall k | 0 <= k < MTFL_SIZE * (l - 1)
      ensures 0 <= Cell(base, k) < MTFA_SIZE && after[Cell(base, k)] == list[k]
    {
      CellOrder(base, k, y);
    }
  }

  lemma FarEnd(cells: seq<nat>, base: seq<int>, list: seq<nat>, nn: nat)
    requires FarState(cells, base, list, nn, 0)
    ensures var b := Sliding(base, nn / MTFL_SIZE, 0);
            var b' := b[0 := b[0] - 1];
            && b[0] == base[0] && 0 <= b'[0] < MTFA_SIZE && Apart(b')
            && Holds(cells[b'[0] := list[nn]], b', MoveToFront(list, nn), 256)
  {
    var top := nn / MTFL_SIZE;
    var b := Sliding(base, top, 0);
    var b' := b[0 := b[0] - 1];
    ApartInside(base);
    forall k | 0 <= k < 256
      ensures 0 <= Cell(b', k) < MTFA_SIZE
      ensures cells[b'[0] := list[nn]][Cell(b', k)] == MoveToFront(list, nn)[k]
    {
      assert Cell(b', k) == NewCell(base, top, k);
      CellOrder(base, 0, k);
    }
  }

  lemma HoldsAt(cells: seq<nat>, base: seq<int>, list: seq<nat>, k: nat)
    requires |base| == LISTS && |list| == 256 && k < 256 && Holds(cells, base, list, 256)
    ensures 0 <= Cell(base, k) < |cells| && cells[Cell(base, k)] == list[k]
  {
  }

  /** Entries from k on are at the top of the cells, those below untouched. */
  ghost predicate Rebuilt(cells: seq<nat>, base: seq<int>, list: seq<nat>, k: int) {
    && |cells| == MTFA_SIZE && Apart(base) && |list| == 256 && 0 <= k <= 256
    && Holds(cells, base, list, k) && forall m :: k <= m < 256 ==> cells[3840 + m] == list[m]
  }

  lemma RebuildStep(cells: seq<nat>, base: seq<int>, list: seq<nat>, k: int)
    requires 0 <= k && Rebuilt(cells, base, list, k + 1)
    ensures 0 <= Cell(base, k) < MTFA_SIZE && Rebuilt(cells[3840 + k := cells[Cell(base, k)]], base, list, k)
  {
    hide Cell;
    CellOrder(base, k, 255);
    forall m | 0 <= m < k ensures Cell(base, m) < 3840 + k {
      CellOrder(base, m, k);
    }
  }

  lemma RebuildEnd(cells: seq<nat>, base: seq<int>, before: seq<int>, list: seq<nat>)
    requires Rebuilt(cells, before, list, 0)
    requires |base| == LISTS && forall l :: 0 <= l < LISTS ==> base[l] == 3840 + MTFL_SIZE * l
    ensures Apart(base) && Holds(cells, base, list, 256)
  {
    forall k | 0 <= k < 256 ensures Cell(base, k) == 3840 + k {
    }
  }

  class FastList {
    const mtfa: array<nat>
    const mtfbase: array<int>
    /** The plain list that the cells stand for. */
    ghost var list: seq<nat>

    ghost predicate Valid()
      reads this, mtfa, mtfbase
    {
      && mtfa.Length == MTFA_SIZE && mtfbase.Length == LISTS && |list| == 256
      && Apart(mtfbase[..]) && 0 < mtfbase[0]
      && Holds(mtfa[..], mtfbase[..], list, 256)
    }

    constructor ()
      ensures Valid() && fresh(mtfa) && fresh(mtfbase) && list == Identity(256)
    {
      var a, b := new nat[MTFA_SIZE], new int[LISTS];
      mtfa, mtfbase := a, b;
      new;
      Init();
    }

    /** The start of every block: all sublists at the top of the cells. */
    method Init()
      requires mtfa.Length == MTFA_SIZE && mtfbase.Length == LISTS
      modifies this`list, mtfa, mtfbase
      ensures Valid() && list == Identity(256)
    {
      list := Identity(256);
      var kk := MTFA_SIZE - 1;
      var ii := LISTS - 1;
      while ii >= 0
        invariant -1 <= ii <= 15 && kk == 3840 + MTFL_SIZE * ii + 15
        invariant forall l :: ii < l < LISTS ==> mtfbase[l] == 3840 + MTFL_SIZE * l
        invariant forall x :: kk < x < MTFA_SIZE ==> mtfa[x] == x - 3840
        modifies mtfa, mtfbase
      {
        var jj := MTFL_SIZE - 1;
        while jj >= 0
          invariant -1 <= jj <= 15 && kk == 3840 + MTFL_SIZE * ii + jj
          invariant forall x :: kk < x < MTFA_SIZE ==> mtfa[x] == x - 3840
          modifies mtfa
        {
          mtfa[kk] := ii * MTFL_SIZE + jj;
          kk := kk - 1;
          jj := jj - 1;
        }
        mtfbase[ii] := kk + 1;
        ii := ii - 1;
      }
    }

    /** The front entry, without moving it. */
    method Front() returns (uc: nat)
      requires Valid()
      ensures uc == list[0]
    {
      HoldsAt(mtfa[..], mtfbase[..], list, 0);
      CellOrder(mtfbase[..], 0, 0);
      uc := mtfa[mtfbase[0]];
    }

    /** uc = MTF(nn): returns entry nn and moves it to the front. */
    method Decode(nn: nat) returns (uc: nat)
      requires Valid() && nn < 256
      modifies this, mtfa, mtfbase
      ensures Valid()
      ensures uc == old(list)[nn] && list == MoveToFront(old(list), nn)
    {
      if nn < MTFL_SIZE {
        uc := DecodeNear(nn);
      } else {
        uc := DecodeFar(nn);
      }
    }

    /** Entry nn < 16: only the first sublist changes. */
    method DecodeNear(nn0: nat) returns (uc: nat)
      requires Valid() && nn0 < MTFL_SIZE
      modifies this`list, mtfa
      ensures Valid()
      ensures uc == old(list)[nn0] && list == MoveToFront(old(list), nn0)
    {
      hide Holds, Cell;
      ghost var before, base := mtfa[..], mtfbase[..];
      ApartInside(base);
      HoldsAt(before, base, list, nn0);
      CellOrder(base, 0, nn0);
      var nn := nn0;
      var pp := mtfbase[0];
      uc := mtfa[pp + nn];
      while nn > 3
        invariant 0 <= nn <= nn0
        invariant forall x :: 0 <= x < MTFA_SIZE && (x <= pp + nn || pp + nn0 < x) ==> mtfa[x] == before[x]
        invariant forall x :: pp + nn < x <= pp + nn0 ==> mtfa[x] == before[x - 1]
        modifies mtfa
      {
        var z := pp + nn;
        mtfa[z] := mtfa[z - 1];
        mtfa[z - 1] := mtfa[z - 2];
        mtfa[z - 2] := mtfa[z - 3];
        mtfa[z - 3] := mtfa[z - 4];
        nn := nn - 4;
      }
      while nn > 0
        invariant 0 <= nn <= nn0
        invariant forall x :: 0 <= x < MTFA_SIZE && (x <= pp + nn || pp + nn0 < x) ==> mtfa[x] == before[x]
        invariant forall x :: pp + nn < x <= pp + nn0 ==> mtfa[x] == before[x - 1]
        modifies mtfa
      {
        mtfa[pp + nn] := mtfa[pp + nn - 1];
        nn := nn - 1;
      }
      mtfa[pp] := uc;
      NearHolds(before, mtfa[..], base, list, nn0);
      list := MoveToFront(list, nn0);
    }

    /** Entry nn >= 16: its sublist closes up, every earlier sublist passes its
        last entry on and slides down one cell. */
    method DecodeFar(nn: nat) returns (uc: nat)
      requires Valid() && MTFL_SIZE <= nn < 256
      modifies this, mtfa, mtfbase
      ensures Valid()
      ensures uc == old(list)[nn] && list == MoveToFront(old(list), nn)
    {
      hide Holds, Cell, FarState, Sliding;
      ghost var base, next := mtfbase[..], MoveToFront(list, nn);
      var lno := nn / MTFL_SIZE;
      uc := CloseUp(nn);
      mtfbase[lno] := mtfbase[lno] + 1;
      SlidingStart(base, lno);
      assert mtfbase[..] == Sliding(base, lno, lno);
      SlideDown(lno, base, nn);
      FarEnd(mtfa[..], base, list, nn);
      ghost var last := mtfbase[..][0 := mtfbase[0] - 1];
      mtfbase[0] := mtfbase[0] - 1;
      ghost var after := mtfa[..][mtfbase[0] := uc];
      mtfa[mtfbase[0]] := uc;
      list := next;
      assert mtfa[..] == after && mtfbase[..] == last;
      if mtfbase[0] == 0 {
        Rebuild();
      }
    }

    /** Takes entry nn out of its sublist. */
    method CloseUp(nn: nat) returns (uc: nat)
      requires Valid() && MTFL_SIZE <= nn < 256
      modifies mtfa
      ensures uc == list[nn] && FarState(mtfa[..], mtfbase[..], list, nn, nn / MTFL_SIZE)
    {
      hide Holds, Cell, FarState;
      ghost var cells, base := mtfa[..], mtfbase[..];
      ApartInside(base);
      HoldsAt(cells, base, list, nn);
      var lno, off := nn / MTFL_SIZE, nn % MTFL_SIZE;
      CellIs(base, lno, off);
      CellIs(base, lno, 0);
      var pp := mtfbase[lno] + off;
      uc := mtfa[pp];
      while pp > mtfbase[lno]
        invariant base[lno] <= pp <= base[lno] + off
        invariant forall x :: 0 <= x < MTFA_SIZE && (x <= pp || base[lno] + off < x) ==> mtfa[x] == cells[x]
        invariant forall x :: pp < x <= base[lno] + off ==> mtfa[x] == cells[x - 1]
        modifies mtfa
      {
        mtfa[pp] := mtfa[pp - 1];
        pp := pp - 1;
      }
      FarStart(cells, mtfa[..], base, list, nn);
    }

    /** Every sublist up to top takes over the last entry of the one before. */
    method SlideDown(top: nat, ghost base: seq<int>, ghost nn: nat)
      requires mtfa.Length == MTFA_SIZE && mtfbase.Length == LISTS
      requires FarState(mtfa[..], base, list, nn, top) && top == nn / MTFL_SIZE
      requires |base| == LISTS && top < LISTS && mtfbase[..] == Sliding(base, top, top)
      modifies mtfa, mtfbase
      ensures FarState(mtfa[..], base, list, nn, 0) && mtfbase[..] == Sliding(base, top, 0)
    {
      hide Holds, Cell, FarState, Sliding, NewCell;
      var lno := top;
      while lno > 0
        invariant 0 <= lno <= top
        invariant mtfbase[..] == Sliding(base, top, lno)
        invariant FarState(mtfa[..], base, list, nn, lno)
      {
        FarStep(mtfa[..], base, list, nn, lno);
        SlidingStep(base, top, lno);
        ghost var x := NewCell(base, top, MTFL_SIZE * lno);
        ghost var b := mtfbase[..][lno := mtfbase[lno] - 1];
        mtfbase[lno] := mtfbase[lno] - 1;
        ghost var after := mtfa[..][x := mtfa[mtfbase[lno - 1] + MTFL_SIZE - 1]];
        mtfa[mtfbase[lno]] := mtfa[mtfbase[lno - 1] + MTFL_SIZE - 1];
        lno := lno - 1;
        assert mtfbase[..] == b;
        assert mtfa[..] == after;
      }
    }

    /** Moves the whole list back to the top of the cells. */
    method Rebuild()
      requires mtfa.Length == MTFA_SIZE && mtfbase.Length == LISTS && |list| == 256
      requires Apart(mtfbase[..]) && Holds(mtfa[..], mtfbase[..], list, 256)
      modifies mtfa, mtfbase
      ensures Valid() && mtfbase[0] == MTFA_SIZE - 256
    {
      hide Holds, Cell;
      ghost var base := mtfbase[..];
      ApartInside(base);
      var kk := MTFA_SIZE - 1;
      var ii := LISTS - 1;
      while ii >= 0
        invariant -1 <= ii <= 15 && kk == 3840 + MTFL_SIZE * ii + 15
        invariant forall l :: 0 <= l < LISTS ==> mtfbase[l] == if l <= ii then base[l] else 3840 + MTFL_SIZE * l
        invariant Rebuilt(mtfa[..], base, list, MTFL_SIZE * (ii + 1))
        modifies mtfa, mtfbase
      {
        var jj := MTFL_SIZE - 1;
        while jj >= 0
          invariant -1 <= jj <= 15 && kk == 3840 + MTFL_SIZE * ii + jj
          invariant Rebuilt(mtfa[..], base, list, MTFL_SIZE * ii + jj + 1)
          modifies mtfa
        {
          CellIs(base, ii, jj);
          RebuildStep(mtfa[..], base, list, MTFL_SIZE * ii + jj);
          ghost var after := mtfa[..][kk := mtfa[mtfbase[ii] + jj]];
          mtfa[kk] := mtfa[mtfbase[ii] + jj];
          assert mtfa[..] == after;
          kk := kk - 1;
          jj := jj - 1;
        }
        mtfbase[ii] := kk + 1;
        ii := ii - 1;
      }
      RebuildEnd(mtfa[..], mtfbase[..], base, list);
    }
  }
}
