/** The two programs together. */
module WholeStream {
  import opened Words
  import opened BzStream
  import opened BitIO
  import Crc
  import opened Outcome
  import Compressor
  import Decompressor
  import opened Piecewise

  /** Main result: whatever calls of bzCompress led to STREAM_END, a new
      decompressor in either form, given the output in any pieces, with any
      room, ends with STREAM_END and has written the compressor's input. */
  method DecompressOutput(e: Compressor.EState, small: bool, pieces: seq<seq<byte>>, room: nat)
      returns (d: Decompressor.DState, code: Decompressor.Code)
    requires e.Valid() && e.mode == Compressor.IDLE && e.Ended()
    requires Joined(pieces) == e.strm.nextOut && 0 < room < WORD
    ensures code == Decompressor.STREAM_END && d.strm.nextOut == e.strm.taken
  {
    hide Compressor.EState.Valid, Compressor.EState.Ended, OutcomeOf, BytesToBits, Decompressor.DState.Inner, Joined;
    Tables(e);
    var strm := new Stream();
    d := new Decompressor.DState(strm, e.tab, small);
    e.EndDecodes();
    NoBits();
    Waits(d);
    ghost var out, lost;
    code, out, lost := DecompressPieces(d, pieces, room);
    assert [] + out == out && out + [] == out;
  }

  method Give(e: Compressor.EState, room: nat)
    requires e.Resting() && room < WORD
    modifies e.strm`availOut
    ensures e.Resting() && e.strm.availOut == room
    ensures e.Rank() == old(e.Rank()) && e.Owed() == old(e.Owed()) && e.mode == old(e.mode)
  {
    hide Compressor.EState.Shape, Compressor.EState.Sides, Compressor.EState.Conserved;
    e.strm.availOut := room;
  }

  /** What BZ_FINISH may be called for. */
  ghost predicate MayFinish(e: Compressor.EState)
    reads e`mode, e`availInExpect, e.strm`nextIn
  {
    e.mode == Compressor.RUNNING || (e.mode == Compressor.FINISHING && e.availInExpect == |e.strm.nextIn|)
  }

  /** Main result: calls with BZ_FINISH, each with room for some bytes, come to
      STREAM_END, and then all input has been taken. */
  method FinishAll(e: Compressor.EState, room: nat)
    requires e.Resting() && MayFinish(e) && 0 < room < WORD
    modifies e.Repr()
    ensures e.Resting() && e.mode == Compressor.IDLE && e.Ended()
    ensures e.strm.taken == old(e.strm.taken + e.strm.nextIn) && e.strm.nextIn == []
  {
    hide Compressor.EState.Valid, Compressor.EState.Ended, Compressor.EState.Resting, Compressor.EState.Rank,
        Compressor.EState.Full, Compressor.EState.Owed;
    ghost var total := |e.strm.taken| + |e.strm.nextIn|;
    GoalIs(e);
    while true
      invariant e.Resting() && MayFinish(e)
      invariant e.strm.taken + e.strm.nextIn == old(e.strm.taken + e.strm.nextIn)
      invariant e.mode == Compressor.FINISHING ==> e.goal == total
      decreases |e.strm.nextIn|, e.Rank(), e.Owed()
    {
      OwedIs(e);
      Give(e, room);
      ghost var taken, nextIn := e.strm.taken, e.strm.nextIn;
      var code := e.BzCompress(Compressor.FINISH);
      assert |taken| + |nextIn| == |taken + nextIn| == total;
      if code == Compressor.STREAM_END {
        break;
      }
      assert code == Compressor.FINISH_OK;
    }
    EndTaken(e);
    assert |e.strm.taken + e.strm.nextIn| == total;
  }

  lemma GoalIs(e: Compressor.EState)
    requires e.Resting()
    ensures e.mode == Compressor.FINISHING && e.availInExpect == |e.strm.nextIn| ==>
        e.goal == |e.strm.taken| + |e.strm.nextIn|
  {
    hide Compressor.EState.Shape, Compressor.EState.Sides, Compressor.EState.Conserved;
  }

  lemma OwedIs(e: Compressor.EState)
    requires e.Resting()
    ensures 0 <= e.Owed()
  {
    hide Compressor.EState.Shape, Compressor.EState.Sides;
  }

  lemma EndTaken(e: Compressor.EState)
    requires e.Ended()
    ensures |e.strm.taken| == e.goal
  {
    hide Compressor.EState.Complete;
  }

  /** Main result, both programs run: any input compressed with any level, any
      work factor and any room, and decompressed in either form, comes back. */
  method ThereAndBack(input: seq<byte>, tab: seq<nat>, level: nat, workFactor: int, room: nat, small: bool,
      otherRoom: nat) returns (output: seq<byte>, code: Decompressor.Code)
    requires Crc.IsTable(tab) && 1 <= level <= 9 && 0 <= workFactor <= 250 && 0 < room < WORD && 0 < otherRoom < WORD
    ensures code == Decompressor.STREAM_END && output == input
  {
    hide Compressor.EState.Valid, Compressor.EState.Ended, Compressor.EState.Resting;
    var strm := new Stream();
    strm.nextIn := input;
    var e := new Compressor.EState(strm, tab, level, workFactor);
    FinishAll(e, room);
    assert [] + input == input;
    RestingIsValid(e);
    assert Joined([]) == [];
    assert Joined([e.strm.nextOut]) == e.strm.nextOut + Joined([][..]);
    var d;
    d, code := DecompressOutput(e, small, [e.strm.nextOut], otherRoom);
    output := d.strm.nextOut;
  }

  lemma RestingIsValid(e: Compressor.EState)
    requires e.Resting()
    ensures e.Valid()
  {
    hide Compressor.EState.Valid;
  }

  lemma Tables(e: Compressor.EState)
    requires e.Valid()
    ensures Crc.IsTable(e.tab)
  {
  }
}
