/** What is still to come from a decompressor, as a function of the input it
    has not yet been given. */
module Outcome {
  import opened Words
  import opened Rle
  import opened Crc
  import opened DecoderMachine
  import opened StreamFuture

  /** A decompressor at rest. While a block is being written, rem is what it
      has left, well whether its runs end with it, and crc covers what has been
      written; bits is the input taken or offered but not used. */
  datatype Snapshot = Snapshot(parse: Parse, rem: seq<byte>, well: bool, crc: nat, combined: nat, bits: seq<bool>)

  ghost predicate Proper(tab: seq<nat>, s: Snapshot) {
    IsTable(tab) && s.crc < WORD && s.combined < WORD
  }

  /** All output from s on and the verdict, if more is the rest of the input. */
  ghost function OutcomeOf(tab: seq<nat>, s: Snapshot, more: seq<bool>): (seq<byte>, Verdict)
    requires Proper(tab, s)
  {
    if s.parse.Output? then FutureOutput(tab, s.parse.h, s.rem, s.well, s.crc, s.combined, s.bits + more)
    else Future(tab, s.parse, s.combined, s.bits + more)
  }

  ghost predicate Prefixed(r: (seq<byte>, Verdict), out: seq<byte>, q: (seq<byte>, Verdict)) {
    r.0 == out + q.0 && r.1 == q.1
  }

  /** From s, the bytes out are written and t is reached, and this takes
      nothing from and adds nothing to what is still to come, whatever that
      is. */
  ghost predicate Leads(tab: seq<nat>, s: Snapshot, out: seq<byte>, t: Snapshot)
  {
    Proper(tab, s) && Proper(tab, t)
        && forall more: seq<bool> {:trigger OutcomeOf(tab, s, more)} {:trigger OutcomeOf(tab, t, more)} ::
      Prefixed(OutcomeOf(tab, s, more), out, OutcomeOf(tab, t, more))
  }

  /** Nothing more comes, whatever input follows. */
  ghost predicate Ends(tab: seq<nat>, s: Snapshot, out: seq<byte>, v: Verdict) {
    Proper(tab, s) && forall more: seq<bool> {:trigger OutcomeOf(tab, s, more)} :: OutcomeOf(tab, s, more) == (out, v)
  }

  lemma LeadsNowhere(tab: seq<nat>, s: Snapshot)
    requires Proper(tab, s)
    ensures Leads(tab, s, [], s)
  {
  }

  /** Calls compose, so that any splitting of the input and of the
      output into pieces gives the same bytes and the same verdict. */
  lemma LeadsTransitive(tab: seq<nat>, s: Snapshot, out1: seq<byte>, t: Snapshot, out2: seq<byte>, u: Snapshot)
    requires Leads(tab, s, out1, t) && Leads(tab, t, out2, u)
    ensures Leads(tab, s, out1 + out2, u)
  {
    hide OutcomeOf;
    forall more: seq<bool> ensures Prefixed(OutcomeOf(tab, s, more), out1 + out2, OutcomeOf(tab, u, more)) {
      assert out1 + (out2 + OutcomeOf(tab, u, more).0) == out1 + out2 + OutcomeOf(tab, u, more).0;
    }
  }

  lemma LeadsToEnd(tab: seq<nat>, s: Snapshot, out1: seq<byte>, t: Snapshot, out2: seq<byte>, v: Verdict)
    requires Leads(tab, s, out1, t) && Ends(tab, t, out2, v)
    ensures Ends(tab, s, out1 + out2, v)
  {
    hide Future, FutureOutput;
  }

  // ---------- reading ----------

  /** The machine has used up the input and waits. */
  lemma ReadingLeads(tab: seq<nat>, s: Snapshot, q: Parse, rest: seq<bool>)
    requires Proper(tab, s) && !Stopped(q) && Run(s.parse, s.bits) == (q, rest)
    ensures Leads(tab, s, [], s.(parse := q, bits := rest))
  {
    hide Future, FutureOutput, Run;
    var t := s.(parse := q, bits := rest);
    forall more: seq<bool> ensures Prefixed(OutcomeOf(tab, s, more), [], OutcomeOf(tab, t, more)) {
      RunningFrom(s.parse, s.bits);
      FutureAfterReading(tab, s.parse, s.combined, s.bits, more);
    }
  }

  lemma RunningFrom(p: Parse, bits: seq<bool>)
    requires !Stopped(Run(p, bits).0)
    ensures !Stopped(p)
  {
  }

  ghost function AtOutput(h: Header, col: seq<byte>, combined: nat, rest: seq<bool>): Snapshot
    requires h.origPtr < |col|
  {
    var src := Walk(col, h.origPtr);
    Snapshot(Output(h, col), Remaining(src, |col|, 1), EndsWell(src, |col|, 1), INITIAL, combined, rest)
  }

  /** A block has been read and its output can start. */
  lemma BlockLeads(tab: seq<nat>, s: Snapshot, h: Header, col: seq<byte>, rest: seq<bool>)
    requires Proper(tab, s) && !Stopped(s.parse) && Run(s.parse, s.bits) == (Output(h, col), rest) && h.origPtr < |col|
    ensures Leads(tab, s, [], AtOutput(h, col, s.combined, rest))
  {
    hide FutureOutput, Run, Remaining, EndsWell;
    var t := AtOutput(h, col, s.combined, rest);
    RunUses(s.parse, s.bits);
    forall more: seq<bool> ensures Prefixed(OutcomeOf(tab, s, more), [], OutcomeOf(tab, t, more)) {
      RunSplit(s.parse, s.bits, more);
      RunStopped(Output(h, col), rest + more);
    }
  }

  lemma RunUses(p: Parse, bits: seq<bool>)
    requires !Stopped(p) && Stopped(Run(p, bits).0)
    ensures |Run(p, bits).1| < |bits|
  {
  }

  lemma RunStopped(p: Parse, bits: seq<bool>)
    requires Stopped(p)
    ensures Run(p, bits) == (p, bits)
  {
  }

  function VerdictOf(p: Parse, combined: nat): Verdict {
    match p
    case Idle(crc) => if crc == combined then End else Corrupt
    case Failed(e) => if e == BadMagic then NotBzip else if e == BadData then Corrupt else Unsupported
    case _ => NeedMore
  }

  /** The machine has stopped for good. */
  lemma StopEnds(tab: seq<nat>, s: Snapshot, q: Parse, rest: seq<bool>)
    requires Proper(tab, s) && !s.parse.Output? && (q.Idle? || q.Failed?) && Run(s.parse, s.bits) == (q, rest)
    ensures Ends(tab, s, [], VerdictOf(q, s.combined))
  {
    hide FutureOutput, Run;
    forall more: seq<bool> ensures OutcomeOf(tab, s, more) == ([], VerdictOf(q, s.combined)) {
      RunSplit(s.parse, s.bits, more);
      RunStopped(q, rest + more);
    }
  }

  // ---------- writing ----------

  /** Part of a block, out, has been written. */
  ghost predicate Advanced(tab: seq<nat>, s: Snapshot, out: seq<byte>, t: Snapshot) {
    && IsTable(tab) && s.crc < WORD && s.parse.Output? && s.rem == out + t.rem
    && t == s.(rem := t.rem, crc := CrcOf(tab, s.crc, out))
  }

  lemma WritingLeads(tab: seq<nat>, s: Snapshot, out: seq<byte>, t: Snapshot)
    requires Proper(tab, s) && Advanced(tab, s, out, t)
    ensures Leads(tab, s, out, t)
  {
    hide FutureOutput, CrcOf;
    forall more: seq<bool> {
      FutureAfterWriting(tab, s.parse.h, out, t.rem, s.well, s.crc, s.combined, s.bits + more);
    }
  }

  /** A block that ends badly, or not with the CRC that its header has. */
  lemma BadBlockEnds(tab: seq<nat>, s: Snapshot)
    requires Proper(tab, s) && s.parse.Output?
    requires !s.well || Finalise(CrcOf(tab, s.crc, s.rem)) != s.parse.h.crc
    ensures Ends(tab, s, s.rem, if s.well then Corrupt else CutShort)
  {
  }

  /** Outside the output of a block. */
  function Between(p: Parse, combined: nat, bits: seq<bool>): Snapshot {
    Snapshot(p, [], true, INITIAL, combined, bits)
  }

  /** A block is complete. */
  lemma DoneLeads(tab: seq<nat>, s: Snapshot)
    requires Proper(tab, s) && s.parse.Output? && s.rem == [] && s.well && Finalise(s.crc) == s.parse.h.crc
    ensures Leads(tab, s, [], Between(BlkHdr(s.parse.h.level, 0), Combine(s.combined, s.parse.h.crc), s.bits))
  {
    hide Future, Combine, Finalise;
    assert CrcOf(tab, s.crc, []) == s.crc;
  }
}
