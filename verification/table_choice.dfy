/** How sendMTFValues chooses its coding tables: an initial guess, then four
    passes that give every group of 50 symbols its cheapest table and fit the
    tables to their groups. */
module TableChoice {
  import opened Words
  import opened Counting
  import opened HuffmanForest
  import opened HuffmanOptimal
  import opened HuffmanCodes
  import opened HuffmanLengths
  import opened DecoderMachine

  const BZ_N_GROUPS := 6
  const BZ_N_ITERS := 4
  const BZ_LESSER_ICOST := 0
  const BZ_GREATER_ICOST := 15
  const MAX_CODE_LEN := 17

  /** Lengths that a table may have while it is being fitted. */
  ghost predicate Rough(lens: seq<seq<nat>>, nGroups: nat, alphaSize: nat) {
    && |lens| == nGroups
    && forall t {:trigger lens[t]} :: 0 <= t < nGroups ==>
         |lens[t]| == alphaSize && forall v :: 0 <= v < alphaSize ==> lens[t][v] <= MAX_CODE_LEN
  }

  // ---------- the cost of a group ----------

  /** The bits a table needs for the symbols. */
  function Cost(row: seq<nat>, group: seq<nat>): nat
    requires forall i :: 0 <= i < |group| ==> group[i] < |row|
  {
    if |group| == 0 then 0 else Cost(row, group[..|group| - 1]) + row[group[|group| - 1]]
  }

  lemma {:induction false} CostBound(row: seq<nat>, group: seq<nat>)
    requires forall i :: 0 <= i < |group| ==> group[i] < |row|
    requires forall v :: 0 <= v < |row| ==> row[v] <= MAX_CODE_LEN
    ensures Cost(row, group) <= MAX_CODE_LEN * |group|
  {
    if |group| > 0 {
      CostBound(row, group[..|group| - 1]);
    }
  }

  lemma CostNext(row: seq<nat>, syms: seq<nat>, gs: nat, i: nat)
    requires gs <= i < |syms| && forall k :: 0 <= k < |syms| ==> syms[k] < |row|
    ensures Cost(row, syms[gs..i + 1]) == Cost(row, syms[gs..i]) + row[syms[i]]
  {
    assert syms[gs..i + 1][..i - gs] == syms[gs..i];
  }

  /** Main result for the fast case: adding two lengths at a time in the halves
      of a word gives both sums, since neither outgrows its half. */
  method PackedCosts(low: seq<nat>, high: seq<nat>, syms: seq<nat>, gs: nat, ge: nat) returns (costLow: nat,
      costHigh: nat)
    requires |low| == |high| && gs <= ge < |syms| && ge - gs + 1 == BZ_G_SIZE
    requires forall k :: 0 <= k < |syms| ==> syms[k] < |low|
    requires forall v :: 0 <= v < |low| ==> low[v] <= MAX_CODE_LEN && high[v] <= MAX_CODE_LEN
    ensures costLow == Cost(low, syms[gs..ge + 1]) && costHigh == Cost(high, syms[gs..ge + 1])
  {
    hide Cost, BitAnd, BitOr;
    var cost: nat := 0;
    ghost var a, b := 0, 0;
    CostNone(low);
    CostNone(high);
    assert syms[gs..gs] == [];
    for i := gs to ge + 1
      invariant a == Cost(low, syms[gs..i]) && b == Cost(high, syms[gs..i])
      invariant cost == 0x1_0000 * b + a && a <= MAX_CODE_LEN * (i - gs) && b <= MAX_CODE_LEN * (i - gs)
    {
      CostNext(low, syms, gs, i);
      CostNext(high, syms, gs, i);
      var icv := syms[i];
      var pack := BitOr(high[icv] * 0x1_0000, low[icv]);
      PackedNext(a, b, i - gs, low[icv], high[icv]);
      cost := (cost + pack) % WORD;
      a, b := a + low[icv], b + high[icv];
    }
    AndConstants(cost);
    costLow := BitAnd(cost, 0xffff);
    costHigh := cost / 0x1_0000;
  }

  lemma PackedNext(a: nat, b: nat, n: nat, l: nat, h: nat)
    requires a <= MAX_CODE_LEN * n && b <= MAX_CODE_LEN * n && n < BZ_G_SIZE && l <= MAX_CODE_LEN && h <= MAX_CODE_LEN
    ensures (0x1_0000 * b + a + BitOr(h * 0x1_0000, l)) % WORD == 0x1_0000 * (b + h) + (a + l)
  {
    hide BitOr;
    Pow2Values();
    OrIsAdd(h, 16, l);
  }

  lemma CostNone(row: seq<nat>)
    ensures Cost(row, []) == 0
  {
  }

  /** The symbols are of the alphabet. */
  ghost predicate Alphabet(syms: seq<nat>, alphaSize: nat) {
    forall k {:trigger syms[k]} :: 0 <= k < |syms| ==> syms[k] < alphaSize
  }

  /** The cost of the group gs..ge with each table: in pairs when all six are in
      use and the group is full, else one by one in 16 bits. */
  method GroupCosts(lens: seq<seq<nat>>, nGroups: nat, alphaSize: nat, syms: seq<nat>, gs: nat,
      ge: nat) returns (cost: seq<nat>)
    requires nGroups <= BZ_N_GROUPS && Rough(lens, nGroups, alphaSize) && Alphabet(syms, alphaSize)
    requires gs <= ge < |syms| && ge - gs + 1 <= BZ_G_SIZE
    ensures |cost| == nGroups && forall t :: 0 <= t < nGroups ==> cost[t] == Cost(lens[t], syms[gs..ge + 1])
  {
    hide Cost;
    if nGroups == 6 && ge - gs + 1 == BZ_G_SIZE {
      var c0, c1 := PackedCosts(lens[0], lens[1], syms, gs, ge);
      var c2, c3 := PackedCosts(lens[2], lens[3], syms, gs, ge);
      var c4, c5 := PackedCosts(lens[4], lens[5], syms, gs, ge);
      return [c0, c1, c2, c3, c4, c5];
    }
    cost := [];
    for t := 0 to nGroups
      invariant |cost| == t && forall u :: 0 <= u < t ==> cost[u] == Cost(lens[u], syms[gs..ge + 1])
    {
      var c: nat := 0;
      assert syms[gs..gs] == [];
      CostNone(lens[t]);
      for i := gs to ge + 1
        invariant c == Cost(lens[t], syms[gs..i]) && c <= MAX_CODE_LEN * (i - gs)
      {
        CostNext(lens[t], syms, gs, i);
        c := (c + lens[t][syms[i]]) % 0x1_0000;
      }
      cost := cost + [c];
    }
  }

  /** The first of the cheapest tables. */
  method Cheapest(cost: seq<nat>) returns (bt: nat, bc: nat)
    requires 0 < |cost| && forall t :: 0 <= t < |cost| ==> cost[t] < 999999999
    ensures bt < |cost| && bc == cost[bt] && forall t ::
        0 <= t < |cost| ==> cost[bt] <= cost[t] && (t < bt ==> cost[bt] < cost[t])
  {
    bt, bc := 0, 999999999;
    for t := 0 to |cost|
      invariant t == 0 ==> bc == 999999999
      invariant t > 0 ==> bt < t && bc == cost[bt]
      invariant forall u :: 0 <= u < t ==> bc <= cost[u] && (u < bt ==> bc < cost[u])
    {
      if cost[t] < bc {
        bc, bt := cost[t], t;
      }
    }
  }

  // ---------- the tables to start with ----------

  /** More symbols are worth more tables. */
  function GroupCount(nMTF: nat): (n: nat)
    ensures 2 <= n <= BZ_N_GROUPS
  {
    if nMTF < 200 then 2 else if nMTF < 600 then 3 else if nMTF < 1200 then 4 else if nMTF < 2400 then 5 else 6
  }

  function Row(alphaSize: nat, gs: int, ge: int): (r: seq<nat>)
    ensures |r| == alphaSize && forall v :: 0 <= v < alphaSize ==> r[v] <= MAX_CODE_LEN
  {
    seq(alphaSize, v => if gs <= v <= ge then BZ_LESSER_ICOST else BZ_GREATER_ICOST)
  }

  lemma {:induction false} SumSplit(s: seq<nat>, k: nat)
    requires k <= |s|
    ensures Sum(s) == Sum(s[..k]) + Sum(s[k..])
  {
    if k == |s| {
      assert s[..k] == s && s[k..] == [];
    } else {
      var h := s[..|s| - 1];
      SumSplit(h, k);
      assert h[..k] == s[..k] && s[k..][..|s| - k - 1] == h[k..];
    }
  }

  lemma SumTake(s: seq<nat>, gs: nat, k: nat)
    requires gs <= k < |s|
    ensures Sum(s[gs..k + 1]) == Sum(s[gs..k]) + s[k]
  {
    SumPush(s[gs..k], s[k]);
    assert s[gs..k + 1] == s[gs..k] + [s[k]];
  }

  /** The symbols gs..e - 1 are the fewest that reach the target, if any do. */
  ghost predicate IsShare(freq: seq<nat>, gs: nat, e: nat, target: nat) {
    && gs <= e <= |freq| && (e == |freq| || Sum(freq[gs..e]) >= target)
    && forall i {:trigger freq[gs..i]} :: gs <= i < e ==> Sum(freq[gs..i]) < target
  }

  /** The share from gs on for the nPart tables left of n: every other one but
      the first and the last is a symbol short. */
  ghost predicate ShareFrom(freq: seq<nat>, gs: nat, next: nat, nPart: nat, n: nat)
    requires gs <= |freq| && 0 < nPart <= n
  {
    exists e: nat :: && IsShare(freq, gs, e, Sum(freq[gs..]) / nPart)
                     && next == if e >= gs + 2 && nPart != n && nPart != 1 && (n - nPart) % 2 == 1 then e - 1 else e
  }

  /** Table u is for the symbols cuts[u + 1]..cuts[u] - 1. */
  ghost predicate ShareAt(freq: seq<nat>, lens: seq<seq<nat>>, cuts: seq<nat>, u: nat)
    requires u < |lens| && |cuts| == |lens| + 1
  {
    && cuts[u + 1] <= cuts[u] <= |freq| && ShareFrom(freq, cuts[u + 1], cuts[u], u + 1, |lens|)
    && lens[u] == Row(|freq|, cuts[u + 1], cuts[u] as int - 1)
  }

  /** The tables from t on have their symbols; the ones below are to come. */
  ghost predicate Shared(freq: seq<nat>, lens: seq<seq<nat>>, cuts: seq<nat>, t: nat) {
    && t <= |lens| && |cuts| == |lens| + 1 && cuts[|lens|] == 0
    && forall u :: t <= u < |lens| ==> ShareAt(freq, lens, cuts, u)
  }

  /** The symbols from gs on that make up about an equal share of what is
      left. */
  method Share(freq: seq<nat>, gs: nat, tFreq: nat) returns (ge: int, aFreq: nat)
    requires gs <= |freq|
    ensures gs - 1 <= ge < |freq| && aFreq == Sum(freq[gs..ge + 1]) && IsShare(freq, gs, ge + 1, tFreq)
  {
    hide Sum;
    ge, aFreq := gs - 1, 0;
    assert freq[gs..gs] == [];
    SumNone();
    while aFreq < tFreq && ge < |freq| - 1
      invariant gs - 1 <= ge < |freq| && aFreq == Sum(freq[gs..ge + 1])
      invariant forall i {:trigger freq[gs..i]} :: gs <= i < ge + 1 ==> Sum(freq[gs..i]) < tFreq
    {
      ge := ge + 1;
      SumTake(freq, gs, ge);
      aFreq := aFreq + freq[ge];
    }
  }

  lemma SumNone()
    ensures Sum([]) == 0
  {
  }

  lemma ShareIs(freq: seq<nat>, gs: nat, e: nat, next: nat, nPart: nat, n: nat)
    requires gs <= |freq| && 0 < nPart <= n && IsShare(freq, gs, e, Sum(freq[gs..]) / nPart)
    requires next == if e >= gs + 2 && nPart != n && nPart != 1 && (n - nPart) % 2 == 1 then e - 1 else e
    ensures ShareFrom(freq, gs, next, nPart, n)
  {
    hide IsShare, Sum;
  }

  lemma NextShared(freq: seq<nat>, lens: seq<seq<nat>>, cuts: seq<nat>, t: nat, next: nat)
    requires 0 < t && Shared(freq, lens, cuts, t) && cuts[t] <= next <= |freq|
    requires ShareFrom(freq, cuts[t], next, t, |lens|)
    ensures Shared(freq, lens[t - 1 := Row(|freq|, cuts[t], next - 1)], cuts[t - 1 := next], t - 1)
  {
    hide ShareFrom, Row;
    var lens', cuts' := lens[t - 1 := Row(|freq|, cuts[t], next as int - 1)], cuts[t - 1 := next];
    forall u | t - 1 <= u < |lens| ensures ShareAt(freq, lens', cuts', u) {
      if u >= t {
        assert ShareAt(freq, lens, cuts, u);
      }
    }
  }

  /** The frequency not yet shared out never goes below zero. */
  method InitialTables(freq: seq<nat>, nMTF: nat, nGroups: nat) returns (lens: seq<seq<nat>>, ghost cuts: seq<nat>)
    requires Sum(freq) == nMTF && 2 <= nGroups <= BZ_N_GROUPS
    ensures Rough(lens, nGroups, |freq|) && Shared(freq, lens, cuts, 0)
  {
    hide Sum, Shared, ShareFrom, IsShare, Rough, Row;
    lens := seq(nGroups, _ => Row(|freq|, 0, -1));
    cuts := seq(nGroups + 1, _ => 0);
    NoneShared(freq, lens, cuts);
    RowsRough(lens, nGroups, |freq|);
    var nPart, remF, gs := nGroups, nMTF, 0;
    assert freq[0..] == freq;
    while nPart > 0
      invariant 0 <= nPart <= nGroups && 0 <= gs <= |freq| && remF == Sum(freq[gs..])
      invariant Rough(lens, nGroups, |freq|)
      invariant |lens| == nGroups && |cuts| == nGroups + 1 && cuts[nPart] == gs && Shared(freq, lens, cuts, nPart)
      decreases nPart
    {
      var ge, aFreq := Share(freq, gs, remF / nPart);
      ghost var e: nat := ge + 1;
      if ge > gs && nPart != nGroups && nPart != 1 && (nGroups - nPart) % 2 == 1 {
        SumTake(freq, gs, ge);
        aFreq := aFreq - freq[ge];
        ge := ge - 1;
      }
      ShareIs(freq, gs, e, ge + 1, nPart, nGroups);
      NextShared(freq, lens, cuts, nPart, ge + 1);
      NextRough(lens, nGroups, |freq|, nPart - 1, gs, ge);
      lens := lens[nPart - 1 := Row(|freq|, gs, ge)];
      cuts := cuts[nPart - 1 := ge + 1];
      SumLeft(freq, gs, ge + 1);
      nPart := nPart - 1;
      gs := ge + 1;
      remF := remF - aFreq;
    }
  }

  lemma SumLeft(freq: seq<nat>, gs: nat, e: nat)
    requires gs <= e <= |freq|
    ensures Sum(freq[gs..]) == Sum(freq[gs..e]) + Sum(freq[e..])
  {
    hide Sum;
    SumSplit(freq[gs..], e - gs);
    assert freq[gs..][..e - gs] == freq[gs..e] && freq[gs..][e - gs..] == freq[e..];
  }

  lemma RowsRough(lens: seq<seq<nat>>, nGroups: nat, alphaSize: nat)
    requires |lens| == nGroups && forall t :: 0 <= t < nGroups ==> lens[t] == Row(alphaSize, 0, -1)
    ensures Rough(lens, nGroups, alphaSize)
  {
  }

  lemma NextRough(lens: seq<seq<nat>>, nGroups: nat, alphaSize: nat, t: nat, gs: int, ge: int)
    requires Rough(lens, nGroups, alphaSize) && t < nGroups
    ensures |lens| == nGroups && Rough(lens[t := Row(alphaSize, gs, ge)], nGroups, alphaSize)
  {
  }

  lemma NoneShared(freq: seq<nat>, lens: seq<seq<nat>>, cuts: seq<nat>)
    requires |cuts| == |lens| + 1 && cuts[|lens|] == 0
    ensures Shared(freq, lens, cuts, |lens|)
  {
  }

  // ---------- one pass ----------

  ghost predicate Selectors(selector: seq<nat>, nGroups: nat, n: nat) {
    |selector| == (n + BZ_G_SIZE - 1) / BZ_G_SIZE
        && forall g {:trigger selector[g]} :: 0 <= g < |selector| ==> selector[g] < nGroups
  }

  /** Frequencies per table, together no more than the symbols seen. */
  ghost predicate Counted(rfreq: seq<seq<nat>>, nGroups: nat, alphaSize: nat, n: nat) {
    && |rfreq| == nGroups
    && forall t {:trigger rfreq[t]} :: 0 <= t < nGroups ==> |rfreq[t]| == alphaSize && Sum(rfreq[t]) <= n
  }

  /** Counts the symbols of one group for the table it got. */
  method CountGroup(row: seq<nat>, syms: seq<nat>, gs: nat, ge: nat) returns (r: seq<nat>)
    requires gs <= ge < |syms| && Alphabet(syms, |row|)
    ensures |r| == |row| && Sum(r) == Sum(row) + (ge + 1 - gs)
    ensures forall v :: 0 <= v < |row| ==> r[v] == row[v] + CountEq(syms[gs..ge + 1], v)
  {
    hide Sum;
    r := row;
    assert syms[gs..gs] == [];
    for i := gs to ge + 1
      invariant |r| == |row| && Sum(r) == Sum(row) + (i - gs)
      invariant forall v :: 0 <= v < |row| ==> r[v] == row[v] + CountEq(syms[gs..i], v)
    {
      assert syms[gs..i + 1] == syms[gs..i] + [syms[i]];
      SumUpdate(r, syms[i], r[syms[i]] + 1);
      r := r[syms[i] := r[syms[i]] + 1];
    }
  }

  /** Group number g of the symbols. */
  function GroupOf(syms: seq<nat>, alphaSize: nat, g: nat): (r: seq<nat>)
    requires Alphabet(syms, alphaSize)
    ensures forall i :: 0 <= i < |r| ==> r[i] < alphaSize
  {
    if BZ_G_SIZE * g >= |syms| then []
    else syms[BZ_G_SIZE * g..if BZ_G_SIZE * g + BZ_G_SIZE > |syms| then |syms| else BZ_G_SIZE * g + BZ_G_SIZE]
  }

  lemma GroupIs(syms: seq<nat>, alphaSize: nat, g: nat, gs: nat, ge: nat)
    requires Alphabet(syms, alphaSize) && gs == BZ_G_SIZE * g < |syms|
        && ge == if gs + BZ_G_SIZE - 1 >= |syms| then |syms| - 1 else gs + BZ_G_SIZE - 1
    ensures GroupOf(syms, alphaSize, g) == syms[gs..ge + 1]
  {
  }

  ghost predicate Rows(lens: seq<seq<nat>>, alphaSize: nat) {
    forall t :: 0 <= t < |lens| ==> |lens[t]| == alphaSize
  }

  /** The first of the tables that take the fewest bits for the group. */
  ghost predicate BestTable(lens: seq<seq<nat>>, alphaSize: nat, group: seq<nat>, bt: nat)
    requires Rows(lens, alphaSize) && forall i :: 0 <= i < |group| ==> group[i] < alphaSize
  {
    && bt < |lens|
    && forall t {:trigger lens[t]} :: 0 <= t < |lens| ==>
         && Cost(lens[bt], group) <= Cost(lens[t], group)
         && (t < bt ==> Cost(lens[bt], group) < Cost(lens[t], group))
  }

  /** How often v occurs in the groups that got table t. */
  ghost function CountFor(syms: seq<nat>, alphaSize: nat, selector: seq<nat>, t: nat, v: nat): nat
    requires Alphabet(syms, alphaSize)
  {
    if selector == [] then 0
    else
      var g := |selector| - 1;
      CountFor(syms, alphaSize, selector[..g], t, v)
      + if selector[g] == t then CountEq(GroupOf(syms, alphaSize, g), v) else 0
  }

  ghost function Counts(syms: seq<nat>, alphaSize: nat, selector: seq<nat>, t: nat): (s: seq<nat>)
    requires Alphabet(syms, alphaSize)
    ensures |s| == alphaSize && forall v :: 0 <= v < alphaSize ==> s[v] == CountFor(syms, alphaSize, selector, t, v)
  {
    seq(alphaSize, v requires 0 <= v < alphaSize => CountFor(syms, alphaSize, selector, t, v))
  }

  lemma CountsNext(syms: seq<nat>, alphaSize: nat, selector: seq<nat>, bt: nat, t: nat, row: seq<nat>)
    requires Alphabet(syms, alphaSize) && |row| == alphaSize
    requires forall v :: 0 <= v < alphaSize ==>
      row[v] == Counts(syms, alphaSize, selector, t)[v]
                + (if t == bt then CountEq(GroupOf(syms, alphaSize, |selector|), v) else 0)
    ensures row == Counts(syms, alphaSize, selector + [bt], t)
  {
    hide GroupOf, CountEq;
    assert (selector + [bt])[..|selector|] == selector;
  }

  lemma NoCounts(syms: seq<nat>, alphaSize: nat, t: nat)
    requires Alphabet(syms, alphaSize)
    ensures seq(alphaSize, _ => 0) == Counts(syms, alphaSize, [], t)
  {
  }

  /** Every group gets the cheapest table and is counted for it. */
  method AssignGroups(lens: seq<seq<nat>>, nGroups: nat, alphaSize: nat, syms: seq<nat>) returns (selector: seq<nat>,
      rfreq: seq<seq<nat>>)
    requires 2 <= nGroups <= BZ_N_GROUPS && Rough(lens, nGroups, alphaSize) && Alphabet(syms, alphaSize)
    ensures Selectors(selector, nGroups, |syms|) && Counted(rfreq, nGroups, alphaSize, |syms|)
    ensures forall t :: 0 <= t < nGroups ==> rfreq[t] == Counts(syms, alphaSize, selector, t)
    ensures forall g :: 0 <= g < |selector| ==> BestTable(lens, alphaSize, GroupOf(syms, alphaSize, g), selector[g])
  {
    hide Sum, Cost, GroupOf, Counts, CountEq, BestTable;
    rfreq := seq(nGroups, _ => seq(alphaSize, _ => 0));
    SumOfZeros(seq(alphaSize, _ => 0));
    selector := [];
    forall t | 0 <= t < nGroups ensures rfreq[t] == Counts(syms, alphaSize, [], t) {
      NoCounts(syms, alphaSize, t);
    }
    var gs := 0;
    while gs < |syms|
      invariant 0 <= gs && gs == (if gs < |syms| then BZ_G_SIZE * |selector| else |syms|)
      invariant Selectors(selector, nGroups, if gs < |syms| then gs else |syms|)
      invariant Counted(rfreq, nGroups, alphaSize, gs)
      invariant forall t :: 0 <= t < nGroups ==> rfreq[t] == Counts(syms, alphaSize, selector, t)
      invariant forall g :: 0 <= g < |selector| ==>
                  BestTable(lens, alphaSize, GroupOf(syms, alphaSize, g), selector[g])
    {
      var ge := if gs + BZ_G_SIZE - 1 >= |syms| then |syms| - 1 else gs + BZ_G_SIZE - 1;
      var cost := GroupCosts(lens, nGroups, alphaSize, syms, gs, ge);
      GroupIs(syms, alphaSize, |selector|, gs, ge);
      forall t | 0 <= t < nGroups ensures cost[t] < 999999999 {
        CostBound(lens[t], syms[gs..ge + 1]);
      }
      var bt, bc := Cheapest(cost);
      CheapestIsBest(lens, alphaSize, GroupOf(syms, alphaSize, |selector|), cost, bt);
      var row := CountGroup(rfreq[bt], syms, gs, ge);
      rfreq := rfreq[bt := row];
      forall t | 0 <= t < nGroups ensures rfreq[t] == Counts(syms, alphaSize, selector + [bt], t) {
        CountsNext(syms, alphaSize, selector, bt, t, rfreq[t]);
      }
      selector := selector + [bt];
      gs := ge + 1;
    }
  }

  lemma CheapestIsBest(lens: seq<seq<nat>>, alphaSize: nat, group: seq<nat>, cost: seq<nat>, bt: nat)
    requires Rows(lens, alphaSize) && forall i :: 0 <= i < |group| ==> group[i] < alphaSize
    requires |cost| == |lens| && bt < |cost| && forall t :: 0 <= t < |cost| ==> cost[t] == Cost(lens[t], group)
    requires forall t :: 0 <= t < |cost| ==> cost[bt] <= cost[t] && (t < bt ==> cost[bt] < cost[t])
    ensures BestTable(lens, alphaSize, group, bt)
  {
    hide Cost;
  }

  // ---------- all passes ----------

  /** Tables that may be sent. */
  ghost predicate Fitted(lens: seq<seq<nat>>, nGroups: nat, alphaSize: nat) {
    && |lens| == nGroups
    && forall t {:trigger lens[t]} :: 0 <= t < nGroups ==>
         |lens[t]| == alphaSize && Fits(lens[t]) && forall v :: 0 <= v < alphaSize ==> 1 <= lens[t][v] <= MAX_CODE_LEN
  }

  lemma KraftPush(h: seq<nat>, n: nat, d: nat)
    requires n <= d && forall i :: 0 <= i < |h| ==> h[i] <= d
    ensures KraftSum(h + [n], d) == KraftSum(h, d) + Pow2(d - n)
  {
    hide Sum, Pow2;
    assert KraftShares(h + [n], d) == KraftShares(h, d) + [Pow2(d - n)];
    SumPush(KraftShares(h, d), Pow2(d - n));
  }

  lemma KraftNone(d: nat)
    ensures KraftSum([], d) == 0
  {
    assert KraftShares([], d) == [];
  }

  lemma {:induction false} KraftScale(len: seq<nat>, d: nat, k: nat)
    requires forall i :: 0 <= i < |len| ==> len[i] <= d
    ensures KraftSum(len, d + k) == Pow2(k) * KraftSum(len, d)
  {
    hide KraftSum, Pow2;
    if |len| == 0 {
      assert len == [];
      KraftNone(d);
      KraftNone(d + k);
    } else {
      var h, n := len[..|len| - 1], len[|len| - 1];
      assert len == h + [n];
      KraftScale(h, d, k);
      KraftPush(h, n, d);
      KraftPush(h, n, d + k);
      Pow2Add(k, d - n);
      assert Pow2(k) * (KraftSum(h, d) + Pow2(d - n)) == Pow2(k) * KraftSum(h, d) + Pow2(k) * Pow2(d - n);
    }
  }

  /** An optimal code for the frequencies, scaled as often as it takes to have
      no code of more than 17 bits. */
  ghost predicate FittedTo(freq: seq<nat>, row: seq<nat>) {
    exists k :: ScaledFit(freq, row, k)
  }

  ghost predicate ScaledFit(freq: seq<nat>, row: seq<nat>, k: nat) {
    && Optimal(Scaled(LeafWeights(freq), k), row)
    && forall j: nat :: j < k ==> TreeTooLong(Scaled(LeafWeights(freq), j), 17)
  }

  /** Code lengths for one frequency table. */
  method FitTable(freq: seq<nat>) returns (row: seq<nat>)
    requires 2 <= |freq| <= BZ_MAX_ALPHA_SIZE && Sum(freq) <= MAX_TOTAL_FREQ
    ensures FittedTo(freq, row)
    ensures |row| == |freq| && Fits(row) && forall v :: 0 <= v < |row| ==> 1 <= row[v] <= MAX_CODE_LEN
  {
    hide Sum, KraftSum, Pow2, Optimal, TreeTooLong, Scaled;
    var len, rfreq := new nat[|freq|], new nat[|freq|](i requires 0 <= i < |freq| => freq[i]);
    assert rfreq[..|freq|] == freq;
    ghost var k := MakeCodeLengths(len, rfreq, |freq|, MAX_CODE_LEN);
    row := len[..];
    assert len[..|freq|] == row;
    assert ScaledFit(freq, row, k);
    KraftScale(row, MAX_CODE_LEN, LONGEST - MAX_CODE_LEN);
    Pow2Add(LONGEST - MAX_CODE_LEN, MAX_CODE_LEN);
  }

  method FitTables(rfreq: seq<seq<nat>>, nGroups: nat, alphaSize: nat, ghost n: nat) returns (lens: seq<seq<nat>>)
    requires 2 <= alphaSize <= BZ_MAX_ALPHA_SIZE && Counted(rfreq, nGroups, alphaSize, n) && n <= MAX_TOTAL_FREQ
    ensures Fitted(lens, nGroups, alphaSize) && forall t :: 0 <= t < nGroups ==> FittedTo(rfreq[t], lens[t])
  {
    hide Sum, Fits, FittedTo;
    lens := [];
    for t := 0 to nGroups
      invariant Fitted(lens, t, alphaSize) && forall u :: 0 <= u < t ==> FittedTo(rfreq[u], lens[u])
    {
      var row := FitTable(rfreq[t]);
      lens := lens + [row];
    }
  }

  /** One pass: each group has the cheapest of the tables before, and each
      table after is fitted to the symbols of its groups. */
  ghost predicate Pass(syms: seq<nat>, alphaSize: nat, before: seq<seq<nat>>, selector: seq<nat>, after: seq<seq<nat>>)
    requires Alphabet(syms, alphaSize)
  {
    && |after| == |before| && Rows(before, alphaSize) && |selector| == (|syms| + 49) / 50
    && (forall g :: 0 <= g < |selector| ==> BestTable(before, alphaSize, GroupOf(syms, alphaSize, g), selector[g]))
    && forall t :: 0 <= t < |after| ==> FittedTo(Counts(syms, alphaSize, selector, t), after[t])
  }

  /** k + 1 passes. */
  ghost predicate Passes(syms: seq<nat>, alphaSize: nat, k: nat, first: seq<seq<nat>>, selector: seq<nat>,
      last: seq<seq<nat>>)
    requires Alphabet(syms, alphaSize)
    decreases k, 1
  {
    if k == 0 then Pass(syms, alphaSize, first, selector, last)
    else exists s, mid :: PassesBefore(syms, alphaSize, k, first, s, mid) && Pass(syms, alphaSize, mid, selector, last)
  }

  /** One fewer. */
  ghost predicate PassesBefore(syms: seq<nat>, alphaSize: nat, k: nat, first: seq<seq<nat>>, selector: seq<nat>,
      last: seq<seq<nat>>)
    requires Alphabet(syms, alphaSize)
    decreases k, 0
  {
    k > 0 && Passes(syms, alphaSize, k - 1, first, selector, last)
  }

  ghost function Frequencies(syms: seq<nat>, alphaSize: nat): (s: seq<nat>)
    ensures |s| == alphaSize && forall v :: 0 <= v < alphaSize ==> s[v] == CountEq(syms, v)
  {
    seq(alphaSize, v requires 0 <= v < alphaSize => CountEq(syms, v))
  }

  /** Four passes, from tables that share the symbols out by frequency. */
  ghost predicate Chosen(syms: seq<nat>, alphaSize: nat, lens: seq<seq<nat>>, selector: seq<nat>) {
    && Alphabet(syms, alphaSize) && |lens| == GroupCount(|syms|)
    && exists first, cuts ::
         && Shared(Frequencies(syms, alphaSize), first, cuts, 0)
         && Passes(syms, alphaSize, 3, first, selector, lens)
  }

  lemma PassesNext(syms: seq<nat>, alphaSize: nat, k: nat, first: seq<seq<nat>>, s: seq<nat>, mid: seq<seq<nat>>,
      selector: seq<nat>, last: seq<seq<nat>>)
    requires Alphabet(syms, alphaSize) && Pass(syms, alphaSize, mid, selector, last)
    requires if k == 0 then mid == first else Passes(syms, alphaSize, k - 1, first, s, mid)
    ensures Passes(syms, alphaSize, k, first, selector, last)
  {
    hide Pass;
    if k > 0 {
      assert PassesBefore(syms, alphaSize, k, first, s, mid);
    }
  }

  lemma PassIs(syms: seq<nat>, alphaSize: nat, before: seq<seq<nat>>, selector: seq<nat>, rfreq: seq<seq<nat>>,
      after: seq<seq<nat>>)
    requires Alphabet(syms, alphaSize) && |after| == |before| == |rfreq| && Rows(before, alphaSize)
    requires Selectors(selector, |before|, |syms|)
    requires forall t :: 0 <= t < |rfreq| ==> rfreq[t] == Counts(syms, alphaSize, selector, t)
    requires forall g :: 0 <= g < |selector| ==>
               BestTable(before, alphaSize, GroupOf(syms, alphaSize, g), selector[g])
    requires forall t :: 0 <= t < |rfreq| ==> FittedTo(rfreq[t], after[t])
    ensures Pass(syms, alphaSize, before, selector, after)
  {
    hide BestTable, FittedTo, Counts, GroupOf;
    forall t | 0 <= t < |after| ensures FittedTo(Counts(syms, alphaSize, selector, t), after[t]) {
      assert rfreq[t] == Counts(syms, alphaSize, selector, t);
    }
  }

  /** Main result: whatever the symbols of a block are, the tables are complete
      prefix codes of at most 17 bits, and every group of 50 symbols has one;
      they come of four passes, each of which gives every group the cheapest
      table and every table an optimal code for its groups. */
  method ChooseTables(syms: seq<nat>, mtfFreq: seq<nat>) returns (lens: seq<seq<nat>>, selector: seq<nat>)
    requires 3 <= |mtfFreq| <= BZ_MAX_ALPHA_SIZE && Sum(mtfFreq) == |syms| && 0 < |syms| <= MAX_TOTAL_FREQ
    requires Alphabet(syms, |mtfFreq|) && forall v :: 0 <= v < |mtfFreq| ==> mtfFreq[v] == CountEq(syms, v)
    ensures Fitted(lens, GroupCount(|syms|), |mtfFreq|) && Selectors(selector, GroupCount(|syms|), |syms|)
    ensures |lens| == 2 + (if |syms| >= 200 then 1 else 0) + (if |syms| >= 600 then 1 else 0)
                      + (if |syms| >= 1200 then 1 else 0) + (if |syms| >= 2400 then 1 else 0)
    ensures Chosen(syms, |mtfFreq|, lens, selector)
  {
    hide Sum, Fits, Shared, Passes, Pass, BestTable, FittedTo, Counts, GroupOf, CountEq;
    assert mtfFreq == Frequencies(syms, |mtfFreq|);
    var nGroups, alphaSize := GroupCount(|syms|), |mtfFreq|;
    ghost var cuts;
    lens, cuts := InitialTables(mtfFreq, |syms|, nGroups);
    ghost var first := lens;
    selector := [];
    for iter := 0 to BZ_N_ITERS
      invariant Rough(lens, nGroups, alphaSize)
      invariant iter > 0 ==> Fitted(lens, nGroups, alphaSize) && Selectors(selector, nGroups, |syms|)
      invariant if iter == 0 then lens == first else Passes(syms, alphaSize, iter - 1, first, selector, lens)
    {
      ghost var before, s := lens, selector;
      var rfreq;
      selector, rfreq := AssignGroups(lens, nGroups, alphaSize, syms);
      lens := FitTables(rfreq, nGroups, alphaSize, |syms|);
      PassIs(syms, alphaSize, before, selector, rfreq, lens);
      PassesNext(syms, alphaSize, iter, first, s, before, selector, lens);
    }
  }
}
