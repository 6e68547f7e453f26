/** The decompressor between two calls: the label and the save area, with what
    the arrays hold, are all that is kept of the machine's state. */
module Suspended {
  import opened Words
  import opened BzStream
  import opened BitIO
  import opened Crc
  import opened DecoderMachine
  import opened MachineInvariant
  import opened BlockStore
  import opened Outcome
  import opened Decompressor
  import opened SaveArea

  // ---------- saving and restoring without the arrays ----------

  /** What is saved when a call ends. The list and the column stay in their
      arrays; es, N and nblock are the variables of the block being read. */
  function Suspend(save: Parse, es: int, N: nat, nblock: nat, a: Area): Area {
    match save
    case SymbolStart(b) => SuspendBody(b.(w := Nat(es + 1), n := N), nblock, a, SymbolLabel(N, nblock))
    case SymbolBit(b) => SuspendBody(b.(w := Nat(es + 1), n := N), nblock, a, SymbolLabel(N, nblock) + 1)
    case _ => Save(save, a)
  }

  function SuspendBody(b: Body, nblock: nat, a: Area, state: nat): Area {
    Area(SaveScalars(b, nblock, a.v), SaveFields(b, a.f.(state := state)))
  }

  ghost predicate NoArrays(a: Area) {
    a.f.list == [] && a.f.column == []
  }

  ghost predicate InBody(p: Parse) {
    p.SymbolStart? || p.SymbolBit?
  }

  /** The save area together with the arrays. */
  ghost function WithArrays(a: Area, list: seq<nat>, col: seq<byte>): Area {
    a.(f := a.f.(list := list, column := col))
  }

  /** What is saved, with the arrays, gives the state back. */
  lemma Suspends(p: Parse, a: Area, es: int, N: nat, nblock: nat)
    requires Sound(p) && !Stopped(p) && NoArrays(a)
    requires InBody(p) ==> es == p.b.w - 1 && N == p.b.n && nblock == |p.b.col|
    ensures var a' := Suspend(Saved(p), es, N, nblock, a);
            && NoArrays(a') && a'.f.state >= BZ_X_MAGIC_1
            && Restore(if InBody(p) then WithArrays(a', p.b.list, p.b.col) else a') == p
  {
    hide Sound, Restore;
    SaveAreaSuffices(p, a);
    if InBody(p) {
      BodySuspends(p, a, es, N, nblock);
    } else {
      SaveNoArrays(p, a);
    }
  }

  lemma BodySuspends(p: Parse, a: Area, es: int, N: nat, nblock: nat)
    requires InBody(p) && NoArrays(a) && es == p.b.w - 1 && N == p.b.n && nblock == |p.b.col|
    ensures var a' := Suspend(Saved(p), es, N, nblock, a);
            NoArrays(a') && a'.f.state >= BZ_X_MAGIC_1 && WithArrays(a', p.b.list, p.b.col) == Save(p, a)
  {
    assert Onto(p.b.col, []) == p.b.col;
  }

  lemma SaveNoArrays(p: Parse, a: Area)
    requires Sound(p) && !Stopped(p) && !InBody(p) && NoArrays(a)
    ensures NoArrays(Save(p, a)) && Save(p, a).f.state >= BZ_X_MAGIC_1
  {
    hide AlphaSize, Onto;
  }

  /** Restoring needs nothing of the arrays. */
  lemma RestoresSaved(a: Area, list: seq<nat>, col: seq<byte>)
    requires NoArrays(a)
    ensures var p := Restore(WithArrays(a, list, col));
            Saved(Restore(a)) == Saved(p)
  {
    hide Take;
    TakeNone(a.v.nblock);
  }

  lemma TakeNone(n: int)
    ensures Take<byte>([], n) == []
  {
  }

  // ---------- between two calls ----------

  /** A decompressor that waits for input; nothing is said of save. */
  ghost predicate Kept(d: DState)
    reads d, d.reader, d.reader.strm, if d.store == null then {} else d.store.Repr()
  {
    && IsTable(d.tab) && d.calculatedBlockCRC < WORD && d.calculatedCombinedCRC < WORD
    && d.reader.strm == d.strm && d.strm.Valid() && d.reader.InStep() && d.Apart()
    && Sound(d.parse) && !Stopped(d.parse) && d.StoreMatches()
  }

  /** The area and the arrays hold its state. */
  ghost predicate Waiting(d: DState, a: Area)
    reads d, d.reader, d.reader.strm, if d.store == null then {} else d.store.Repr()
  {
    && Kept(d) && NoArrays(a) && a.f.state >= BZ_X_MAGIC_1 && (InBody(d.parse) ==> d.store != null)
    && Restore(if InBody(d.parse) then WithArrays(a, d.store.fastList.list, d.store.col) else a) == d.parse
  }

  lemma ValidKept(d: DState)
    requires d.Valid() && !Stopped(d.parse)
    ensures Kept(d)
  {
    hide Sound, DState.StoreMatches, DState.Apart, BitReader.InStep;
  }

  lemma KeptValid(d: DState)
    requires Kept(d) && d.save == Saved(d.parse)
    ensures d.Valid() && d.Snap() == Between(d.parse, d.calculatedCombinedCRC, d.reader.Unread())
  {
    hide Sound, Saved, DState.StoreMatches, DState.Apart, BitReader.InStep, BitReader.Unread;
  }

  lemma KeptFrame(d: DState)
    requires Kept(d)
    ensures d.strm.Valid() && d.reader.strm == d.strm
  {
    hide Sound, Saved, DState.StoreMatches, DState.Apart, BitReader.InStep;
  }

  /** What of the block being read is in variables. */
  lemma KeptBody(d: DState)
    requires Kept(d) && InBody(d.parse)
    ensures d.store != null && d.store.es == d.parse.b.w - 1 && d.store.N == d.parse.b.n
    ensures d.store.nblock == |d.parse.b.col| && d.store.fastList.list == d.parse.b.list && d.store.col == d.parse.b.col
    ensures Sound(d.parse)
  {
    hide Sound, DState.Apart, BitReader.InStep, Store.Counted;
  }

  lemma KeptSound(d: DState)
    requires Kept(d)
    ensures Sound(d.parse) && !Stopped(d.parse)
  {
    hide Sound, DState.StoreMatches, DState.Apart, BitReader.InStep;
  }

  lemma SavedForm(d: DState)
    requires d.Valid()
    ensures d.save == Saved(d.parse)
    ensures d.save.Output? <==> d.parse.Output?
    ensures d.save.SymbolStart? || d.save.SymbolBit? <==> InBody(d.parse)
  {
    hide Sound, DState.StoreMatches, DState.Apart, BitReader.InStep;
  }

  /** save_state_and_return: stores what the next call needs. */
  method SaveState(d: DState, a: Area) returns (a': Area)
    requires d.Valid() && !Stopped(d.parse) && NoArrays(a)
    ensures Waiting(d, a')
  {
    hide Sound, Restore, Suspend, Saved, Kept, DState.Valid, NoArrays, WithArrays;
    ValidKept(d);
    SavedForm(d);
    KeptSound(d);
    var es, N, nblock := 0, 0, 0;
    if d.save.SymbolStart? || d.save.SymbolBit? {
      KeptBody(d);
      es, N, nblock := d.store.es, d.store.N, d.store.nblock;
    }
    Suspends(d.parse, a, es, N, nblock);
    a' := Suspend(d.save, es, N, nblock, a);
  }

  /** The save area at the start of a stream. */
  function FirstArea(a: Area): Area {
    a.(f := a.f.(state := BZ_X_MAGIC_1, list := [], column := []))
  }

  lemma FirstWaiting(d: DState, a: Area)
    requires d.Valid() && d.parse == Magic(0)
    ensures Waiting(d, FirstArea(a))
  {
    hide Kept, DState.Valid;
    ValidKept(d);
  }

  /** Whatever save holds the rest is kept. */
  method SetSave(d: DState, save: Parse)
    requires Kept(d)
    modifies d`save
    ensures Kept(d) && d.save == save
  {
    hide Sound, Store.Represents, Store.Tidy;
    d.save := save;
  }

  /** The local variables are set from the label and the save area. */
  method RestoreState(d: DState, a: Area)
    requires Waiting(d, a)
    modifies d`save
    ensures d.Valid() && d.Snap() == old(Between(d.parse, d.calculatedCombinedCRC, d.reader.Unread()))
    ensures !Stopped(d.parse)
  {
    hide Sound, Restore, Saved, Kept, DState.Valid, DState.Snap, BitReader.Unread;
    KeptSound(d);
    if InBody(d.parse) {
      RestoresSaved(a, d.store.fastList.list, d.store.col);
    }
    SetSave(d, Saved(Restore(a)));
    KeptValid(d);
  }

  /** Between two calls that returned OK. While a block is written out save
      holds the header's fields and the label, and nothing is read. */
  ghost predicate Ready(d: DState, a: Area)
    reads d, d.reader, d.reader.strm, if d.store == null then {} else d.store.Repr()
  {
    if d.parse.Output? then d.Valid() && NoArrays(a) && a.f.state == BZ_X_OUTPUT else Waiting(d, a)
  }

  ghost function Now(d: DState, a: Area): Snapshot
    requires Ready(d, a)
    reads d, d.reader, d.reader.strm, if d.store == null then {} else d.store.Repr()
  {
    if d.parse.Output? then d.Snap() else Between(d.parse, d.calculatedCombinedCRC, d.reader.Unread())
  }

  lemma ReadyFrame(d: DState, a: Area)
    requires Ready(d, a)
    ensures NoArrays(a) && !d.parse.Idle? && !d.parse.Failed?
    ensures a.f.state == BZ_X_OUTPUT <==> d.parse.Output?
  {
    hide Kept, DState.Valid, NoArrays;
    if !d.parse.Output? {
      KeptSound(d);
    }
  }

  /** Main result: BZ2_bzDecompress does all it promises with nothing kept of
      the machine's state between two calls but the save area and the arrays:
      save, which stands for the local variables, may hold anything when a call
      goes on reading. */
  method Call(d: DState, a: Area) returns (code: Code, a': Area, ghost out: seq<byte>, ghost lost: seq<byte>)
    requires Ready(d, a)
    modifies d, d.reader, d.strm, if d.store == null then {} else d.store.Repr()
    ensures d.strm.nextOut == old(d.strm.nextOut) + out
    ensures d.strm.taken + d.strm.nextIn == old(d.strm.taken + d.strm.nextIn)
    ensures Final(d.tab, d.smallDecompress, old(Now(d, a)), code, out, lost)
    ensures code == OK ==> Ready(d, a') && Leads(d.tab, old(Now(d, a)), out, Now(d, a'))
    ensures code != SEQUENCE_ERROR
  {
    hide Sound, Restore, Saved, Final, Leads, Kept, DState.Valid, DState.Snap, BitReader.Unread, NoArrays;
    ReadyFrame(d, a);
    if a.f.state != BZ_X_OUTPUT {
      RestoreState(d, a);
    }
    code, out, lost := d.BzDecompress();
    a' := a;
    if code == OK {
      SavedForm(d);
      if d.save.Output? {
        a' := a.(f := a.f.(state := BZ_X_OUTPUT));
        SameArrays(a, BZ_X_OUTPUT);
      } else {
        a' := SaveState(d, a);
        SnapBetween(d);
      }
    }
  }

  lemma SameArrays(a: Area, state: nat)
    requires NoArrays(a)
    ensures NoArrays(a.(f := a.f.(state := state)))
  {
  }

  lemma SnapBetween(d: DState)
    requires d.Valid() && !Stopped(d.parse)
    ensures d.Snap() == Between(d.parse, d.calculatedCombinedCRC, d.reader.Unread())
  {
    hide DState.Valid, BitReader.Unread;
  }
}
