/** What the decompressor's code says of its input. */
module DecodeExactly {
  import opened Words
  import opened BzStream
  import opened Crc
  import opened DecoderMachine
  import opened Outcome
  import opened StreamFuture
  import opened StreamGrammar
  import opened StreamExactly
  import opened Piecewise
  import Decompressor

  lemma NewDecoder(tab: seq<nat>, bits: seq<bool>)
    requires IsTable(tab)
    ensures Proper(tab, Between(Magic(0), 0, []))
    ensures OutcomeOf(tab, Between(Magic(0), 0, []), bits) == Future(tab, Magic(0), 0, bits)
  {
    hide Future;
    assert [] + bits == bits;
  }

  /** Main result: a new decompressor in either form, given any input in any
      pieces and with any room, ends with STREAM_END if and only if the input
      is a stream of the format, and has then written what its blocks stand
      for. */
  method DecompressExactly(tab: seq<nat>, small: bool, pieces: seq<seq<byte>>, room: nat)
      returns (output: seq<byte>, code: Decompressor.Code)
    requires IsTable(tab) && 0 < room < WORD
    ensures code == Decompressor.STREAM_END <==>
      exists ts, level, pad :: IsStream(tab, BytesToBits(Joined(pieces)), ts, level, pad)
    ensures forall ts, level, pad :: IsStream(tab, BytesToBits(Joined(pieces)), ts, level, pad) ==>
      output == BlocksContent(tab, ts, level)
  {
    hide OutcomeOf, Future, BytesToBits, Decompressor.DState.Inner, Joined, StreamBits, SoundBlocks, BlocksContent,
         IsStream;
    var strm := new Stream();
    var d := new Decompressor.DState(strm, tab, small);
    ghost var bits := BytesToBits(Joined(pieces));
    NoBits();
    Waits(d);
    ghost var out, lost;
    code, out, lost := DecompressPieces(d, pieces, room);
    output := d.strm.nextOut;
    assert [] + out == out && out + [] == out;
    NewDecoder(tab, bits);
    EndsExactly(tab, bits);
    forall ts, level, pad | IsStream(tab, bits, ts, level, pad) ensures SoundBlocks(tab, ts, level) {
      StreamIsSound(tab, bits, ts, level, pad);
    }
  }

  lemma StreamIsSound(tab: seq<nat>, bits: seq<bool>, ts: seq<BlockText>, level: nat, pad: seq<bool>)
    requires IsTable(tab) && IsStream(tab, bits, ts, level, pad)
    ensures SoundBlocks(tab, ts, level)
  {
    hide StreamBits, SoundBlocks;
  }
}
