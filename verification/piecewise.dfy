/** A stream decompressed piece by piece: any cutting of the input, and any
    room for the output, gives what the whole input gives. */
module Piecewise {
  import opened Words
  import opened BitIO
  import opened DecoderMachine
  import opened StreamFuture
  import opened Outcome
  import opened Decompressor

  function Joined(pieces: seq<seq<byte>>): seq<byte> {
    if |pieces| == 0 then [] else pieces[0] + Joined(pieces[1..])
  }

  /** The code that tells a verdict. */
  function CodeOf(v: Verdict): Code {
    match v
    case NeedMore => OK
    case End => STREAM_END
    case Corrupt => DATA_ERROR
    case CutShort => DATA_ERROR
    case NotBzip => DATA_ERROR_MAGIC
    case Unsupported => OUTSIDE_MODEL
  }

  /** Input offered now is input that follows. */
  lemma MoreInput(tab: seq<nat>, s: Snapshot, piece: seq<byte>, more: seq<byte>)
    requires Proper(tab, s)
    ensures OutcomeOf(tab, s.(bits := s.bits + BytesToBits(piece)), BytesToBits(more))
         == OutcomeOf(tab, s, BytesToBits(piece + more))
  {
    hide Future, FutureOutput, BytesToBits;
    BytesToBitsConcat(piece, more);
    assert s.bits + BytesToBits(piece) + BytesToBits(more) == s.bits + (BytesToBits(piece) + BytesToBits(more));
  }

  /** Offering input changes nothing but what is unread. */
  method Feed(d: DState, piece: seq<byte>)
    requires d.Valid()
    modifies d.strm`nextIn
    ensures d.Valid() && d.strm.nextIn == old(d.strm.nextIn) + piece
    ensures d.Snap() == old(d.Snap()).(bits := old(d.Snap().bits) + BytesToBits(piece))
  {
    hide DState.Inner, BytesToBits, SnapOf;
    d.ValidFacts();
    ghost var unread := d.reader.Unread();
    BytesToBitsConcat(d.strm.nextIn, piece);
    if d.parse.Output? {
      WritesOut(d);
      SnapBits(d.parse, d.Here(), d.calculatedCombinedCRC, unread, BytesToBits(piece));
    }
    d.strm.nextIn := d.strm.nextIn + piece;
    assert d.reader.Unread() == unread + BytesToBits(piece);
    if d.parse.Output? {
      WritesOut(d);
    }
  }

  lemma WritesOut(d: DState)
    requires d.Valid() && d.parse.Output?
    ensures d.Emitting() && d.EmitSnap() == SnapOf(d.parse, d.Here(), d.calculatedCombinedCRC, d.reader.Unread())
  {
  }

  lemma SnapBits(p: Parse, l: Locals, combined: nat, held: seq<bool>, more: seq<bool>)
    requires p.Output? && p.h.origPtr < |p.col| && 1 <= l.used
    ensures SnapOf(p, l, combined, held + more) == SnapOf(p, l, combined, held).(bits := held + more)
    ensures SnapOf(p, l, combined, held).bits == held
  {
  }

  lemma NoBits()
    ensures BytesToBits([]) == []
  {
  }

  lemma StarvingNeedsMore(d: DState)
    requires d.Valid() && d.Starving()
    ensures Proper(d.tab, d.Snap()) && OutcomeOf(d.tab, d.Snap(), []) == ([], NeedMore)
  {
    hide DState.Inner, BitReader.Unread;
    d.ValidFacts();
    assert d.reader.Unread() + [] == d.reader.Unread();
  }

  lemma Waits(d: DState)
    requires d.Valid() && d.Snap() == Between(Magic(0), 0, []) && d.strm.nextIn == []
    ensures d.Starving()
  {
  }

  /** Calls until the input is used up or the stream is over. Every call that
      fills the room brings the end nearer. */
  method Drain(d: DState, room: nat) returns (code: Code, ghost out: seq<byte>, ghost lost: seq<byte>)
    requires d.Valid() && (d.parse.Output? || !Stopped(d.parse)) && 0 < room < WORD
    modifies d, d.reader, d.strm, if d.store == null then {} else d.store.Repr()
    ensures d.strm.nextOut == old(d.strm.nextOut) + out
    ensures d.store == old(d.store) || (d.store != null && fresh(d.store) && fresh(d.store.Repr()))
    ensures code == OK ==> d.Valid() && d.Starving() && Leads(d.tab, old(d.Snap()), out, d.Snap())
    ensures Final(d.tab, d.smallDecompress, old(d.Snap()), code, out, lost) && code != SEQUENCE_ERROR && |lost| <= room
  {
    hide DState.Inner, DState.Snap, DState.Valid, Leads, Final, OutcomeOf, BitReader.Unread;
    ghost var s, sent := d.Snap(), d.strm.nextOut;
    out, lost := [], [];
    d.ValidFacts();
    LeadsNowhere(d.tab, s);
    while true
      invariant d.Valid() && (d.parse.Output? || !Stopped(d.parse)) && Leads(d.tab, s, out, d.Snap())
          && Proper(d.tab, d.Snap())
      invariant d.strm.nextOut == sent + out
      invariant d.store == old(d.store) || (d.store != null && fresh(d.store) && fresh(d.store.Repr()))
      decreases |OutcomeOf(d.tab, d.Snap(), []).0|
    {
      MakeRoom(d, room);
      ghost var t, before, some := d.Snap(), out, [];
      code, some, lost := d.BzDecompress();
      out := before + some;
      if code != OK {
        FinalFrom(d.tab, d.smallDecompress, s, before, t, code, some, lost);
        return;
      }
      LeadsTransitive(d.tab, s, before, t, some, d.Snap());
      if d.strm.availOut > 0 {
        NotFinal(d.tab, d.smallDecompress, s, OK, out);
        lost := [];
        return;
      }
      d.ValidFacts();
      LeadsOnce(d.tab, t, some, d.Snap(), []);
    }
  }

  method MakeRoom(d: DState, room: nat)
    requires d.Valid() && room < WORD
    modifies d.strm`availOut
    ensures d.Valid() && d.Snap() == old(d.Snap()) && d.strm.availOut == room
  {
    hide DState.Inner, BytesToBits, SnapOf;
    d.ValidFacts();
    d.strm.availOut := room;
  }

  lemma LeadsOnce(tab: seq<nat>, s: Snapshot, out: seq<byte>, t: Snapshot, more: seq<bool>)
    requires Leads(tab, s, out, t)
    ensures Proper(tab, s) && Proper(tab, t) && Prefixed(OutcomeOf(tab, s, more), out, OutcomeOf(tab, t, more))
  {
    hide OutcomeOf;
  }

  lemma FinalFrom(tab: seq<nat>, small: bool, s: Snapshot, out1: seq<byte>, t: Snapshot, code: Code, out2: seq<byte>,
      lost: seq<byte>)
    requires Leads(tab, s, out1, t) && Final(tab, small, t, code, out2, lost)
    ensures Final(tab, small, s, code, out1 + out2, lost)
  {
    hide Leads, Ends;
    match code
    case STREAM_END => LeadsToEnd(tab, s, out1, t, out2, End);
    case DATA_ERROR => BrokeFrom(tab, small, s, out1, t, out2, lost);
    case DATA_ERROR_MAGIC => LeadsToEnd(tab, s, out1, t, out2, NotBzip);
    case OUTSIDE_MODEL => LeadsToEnd(tab, s, out1, t, out2, Unsupported);
    case _ =>
  }

  lemma BrokeFrom(tab: seq<nat>, small: bool, s: Snapshot, out1: seq<byte>, t: Snapshot, out2: seq<byte>,
      lost: seq<byte>)
    requires Leads(tab, s, out1, t) && Broke(tab, small, t, out2, lost)
    ensures Broke(tab, small, s, out1 + out2, lost)
  {
    hide Leads, Ends;
    if lost == [] && Ends(tab, t, out2, Corrupt) {
      LeadsToEnd(tab, s, out1, t, out2, Corrupt);
    } else {
      LeadsToEnd(tab, s, out1, t, out2 + lost, CutShort);
      assert out1 + (out2 + lost) == out1 + out2 + lost;
    }
  }

  /** What a final code says of one continuation. */
  lemma FinalOnce(tab: seq<nat>, small: bool, s: Snapshot, code: Code, out: seq<byte>, lost: seq<byte>, more: seq<bool>)
    requires Final(tab, small, s, code, out, lost) && code != OK && code != SEQUENCE_ERROR
    ensures Proper(tab, s) && code == CodeOf(OutcomeOf(tab, s, more).1)
    ensures OutcomeOf(tab, s, more).0 == out + lost
    ensures lost != [] <==> OutcomeOf(tab, s, more).1 == CutShort && !small
  {
    hide OutcomeOf;
    assert out + [] == out;
  }

  /** Main result: a decompressor that waits for input, given it in pieces and
      the output taken a roomful at a time, ends with the code and has written
      the bytes that the input in one piece gives. Bytes are lost if and only if
      the form is FAST and a block is cut short; they fit in one room. */
  method DecompressPieces(d: DState, pieces: seq<seq<byte>>, room: nat)
      returns (code: Code, ghost out: seq<byte>, ghost lost: seq<byte>)
    requires d.Valid() && d.Starving() && 0 < room < WORD
    modifies d, d.reader, d.strm, if d.store == null then {} else d.store.Repr()
    ensures d.strm.nextOut == old(d.strm.nextOut) + out && |lost| <= room
    ensures Proper(d.tab, old(d.Snap()))
    ensures var outcome := OutcomeOf(d.tab, old(d.Snap()), BytesToBits(Joined(pieces)));
            && code == CodeOf(outcome.1) && out + lost == outcome.0
            && (lost != [] <==> outcome.1 == CutShort && !d.smallDecompress)
  {
    hide DState.Inner, DState.Snap, DState.Valid, Leads, Final, OutcomeOf, BytesToBits, BitReader.Unread;
    ghost var s, sent, all := d.Snap(), d.strm.nextOut, BytesToBits(Joined(pieces));
    out, lost := [], [];
    d.ValidFacts();
    for i := 0 to |pieces|
      invariant d.Valid() && d.Starving() && Proper(d.tab, d.Snap())
      invariant d.strm.nextOut == sent + out
      invariant d.store == old(d.store) || (d.store != null && fresh(d.store) && fresh(d.store.Repr()))
      invariant Prefixed(OutcomeOf(d.tab, s, all), out, OutcomeOf(d.tab, d.Snap(), BytesToBits(Joined(pieces[i..]))))
    {
      ghost var t, later := d.Snap(), Joined(pieces[i + 1..]);
      JoinedNext(pieces, i);
      MoreInput(d.tab, t, pieces[i], later);
      Feed(d, pieces[i]);
      ghost var u, before, some := d.Snap(), out, [];
      code, some, lost := Drain(d, room);
      out := before + some;
      assert sent + before + some == sent + out;
      if code != OK {
        FinalOnce(d.tab, d.smallDecompress, u, code, some, lost, BytesToBits(later));
        assert before + (some + lost) == out + lost;
        return;
      }
      d.ValidFacts();
      LeadsOnce(d.tab, u, some, d.Snap(), BytesToBits(later));
      assert before + (some + OutcomeOf(d.tab, d.Snap(), BytesToBits(later)).0)
          == out + OutcomeOf(d.tab, d.Snap(), BytesToBits(later)).0;
    }
    assert pieces[|pieces|..] == [];
    NoBits();
    StarvingNeedsMore(d);
    code, lost := OK, [];
  }

  lemma JoinedNext(pieces: seq<seq<byte>>, i: nat)
    requires i < |pieces|
    ensures Joined(pieces[i..]) == pieces[i] + Joined(pieces[i + 1..])
  {
    assert pieces[i..][1..] == pieces[i + 1..];
  }
}
