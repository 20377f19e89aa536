/** Running vx_scope_stop against a device that answers fewer reads, or completes fewer
    writes, than another: the run depends only on the accesses it makes, so it either
    fails with -1 at the first access the smaller channel cannot serve, or ends exactly
    like the run on the larger channel. */
module Truncation {
  import opened Commands
  import opened Registers
  import opened Signals
  import opened Vcd
  import opened Frames
  import opened Scope
  import opened RoundTrip
  import opened StopRoundTrip

  /** `a` is `b` cut short: the same log, a prefix of its responses and at most as many
      writes left. */
  predicate Prefix(a: Channel, b: Channel)
  {
    a.log == b.log && a.responses <= b.responses && a.writesLeft <= b.writesLeft
  }

  /** The run on `b` ends in `db`; the run on the cut channel `a` ends in `da`. If `a` has
      fewer responses or writes than the run on `b` used, the cut run returns -1;
      otherwise both runs end alike, having used the same accesses. */
  predicate Truncated(a: Channel, b: Channel, da: Dump, db: Dump)
  {
    |db.chan.responses| <= |b.responses| && db.chan.writesLeft <= b.writesLeft &&
    (|a.responses| < |b.responses| - |db.chan.responses| || a.writesLeft < b.writesLeft - db.chan.writesLeft ==>
       da.status == ERR) &&
    (|b.responses| - |db.chan.responses| <= |a.responses| && b.writesLeft - db.chan.writesLeft <= a.writesLeft ==>
       da.status == db.status && da.vcd == db.vcd && da.timestamp == db.timestamp &&
       Prefix(da.chan, db.chan) &&
       |a.responses| - |da.chan.responses| == |b.responses| - |db.chan.responses| &&
       a.writesLeft - da.chan.writesLeft == b.writesLeft - db.chan.writesLeft)
  }

  lemma ReadCut(a: Channel, b: Channel)
    requires Prefix(a, b) && |a.responses| > 0
    ensures a.Read().Some? && b.Read().Some?
    ensures a.Read().value.0 == b.Read().value.0 && Prefix(a.Read().value.1, b.Read().value.1)
  {
    assert a.responses[1..] == b.responses[1..][..|a.responses| - 1];
  }

  /** A command write then a response read, on the cut channel. */
  lemma QueryCut(a: Channel, b: Channel, op: Opcode)
    requires Prefix(a, b)
    ensures Query(a, op).Reply? ==>
      Query(b, op).Reply? && Query(a, op).value == Query(b, op).value && Prefix(Query(a, op).chan, Query(b, op).chan)
    ensures Query(b, op).NoReply? ==> Query(a, op).NoReply?
    ensures Query(b, op).NoReply? && b.writesLeft - Query(b, op).chan.writesLeft <= a.writesLeft ==>
      Prefix(Query(a, op).chan, Query(b, op).chan) &&
      a.writesLeft - Query(a, op).chan.writesLeft == b.writesLeft - Query(b, op).chan.writesLeft
    ensures Query(b, op).chan.writesLeft <= b.writesLeft
    ensures Query(a, op).NoReply? ==> |Query(a, op).chan.responses| == |a.responses|
  {
    if a.writesLeft > 0 && |a.responses| > 0 {
      ReadCut(a.Write(Code(op)).value, b.Write(Code(op)).value);
    }
  }

  /** The readiness poll on the cut channel: it runs out of responses before the poll on
      `b` finished, or reads the same answers. */
  lemma {:induction false} PollCut(a: Channel, b: Channel)
    requires Prefix(a, b)
    ensures |a.responses| < |b.responses| - |Poll(b).1.responses| ==> !Poll(a).0
    ensures |b.responses| - |Poll(b).1.responses| <= |a.responses| ==>
      Poll(a).0 == Poll(b).0 && Prefix(Poll(a).1, Poll(b).1) &&
      |a.responses| - |Poll(a).1.responses| == |b.responses| - |Poll(b).1.responses|
    decreases |b.responses|
  {
    if |a.responses| > 0 {
      ReadCut(a, b);
      if b.responses[0] == 0 {
        PollCut(a.Read().value.1, b.Read().value.1);
      }
    } else if |b.responses| > 0 {
      assert |Poll(b).1.responses| < |b.responses| by {
        if b.responses[0] == 0 {
          assert Poll(b) == Poll(b.Read().value.1);
        }
      }
    }
  }

  /** The frame decoder on the cut channel. */
  lemma {:induction false} FrameFromCut(signals: seq<Signal>, maxFrames: nat, k: nat, ws: seq<Word>, t: nat,
                                        a: Channel, b: Channel, base: seq<Record>)
    requires ValidTable(signals) && Prefix(a, b)
    ensures Truncated(a, b, FrameFrom(signals, maxFrames, k, ws, t, a, base), FrameFrom(signals, maxFrames, k, ws, t, b, base))
    decreases |b.responses|, 1
  {
    if k + 1 == maxFrames {
      QueryCut(a, b, GetValid);
      if Query(b, GetValid).Reply? && Query(b, GetValid).value == 1 && Query(b, GetValid).chan.writesLeft > 0 {
        if Query(a, GetValid).Reply? && Query(a, GetValid).chan.writesLeft > 0 {
          ReadWordCut(signals, maxFrames, k, ws, t, Query(a, GetValid).chan.Write(Code(GetData)).value,
                      Query(b, GetValid).chan.Write(Code(GetData)).value, base);
        } else {
          ReadWordCut(signals, maxFrames, k, ws, t, Query(b, GetValid).chan.Write(Code(GetData)).value,
                      Query(b, GetValid).chan.Write(Code(GetData)).value, base);
        }
      }
    } else {
      ReadWordCut(signals, maxFrames, k, ws, t, a, b, base);
    }
  }

  lemma {:induction false} ReadWordCut(signals: seq<Signal>, maxFrames: nat, k: nat, ws: seq<Word>, t: nat,
                                       a: Channel, b: Channel, base: seq<Record>)
    requires ValidTable(signals) && Prefix(a, b)
    ensures Truncated(a, b, ReadWord(signals, maxFrames, k, ws, t, a, base), ReadWord(signals, maxFrames, k, ws, t, b, base))
    decreases |b.responses|, 0
  {
    if |a.responses| > 0 {
      ReadCut(a, b);
      AfterWordCut(signals, maxFrames, k, ws + [b.responses[0]], t, a.Read().value.1, b.Read().value.1, base);
    } else if |b.responses| > 0 {
      AfterWordCut(signals, maxFrames, k, ws + [b.responses[0]], t, b.Read().value.1, b.Read().value.1, base);
    }
  }

  lemma {:induction false} AfterWordCut(signals: seq<Signal>, maxFrames: nat, k: nat, ws: seq<Word>, t: nat,
                                        a: Channel, b: Channel, base: seq<Record>)
    requires ValidTable(signals) && Prefix(a, b)
    ensures Truncated(a, b, AfterWord(signals, maxFrames, k, ws, t, a, base), AfterWord(signals, maxFrames, k, ws, t, b, base))
    decreases |b.responses|, 2
  {
    if |ws| < WordsPerFrame(CalcFrameWidth(signals, 0)) {
      if k != maxFrames {
        FrameFromCut(signals, maxFrames, k, ws, t, a, b, base);
      }
    } else if k + 1 != maxFrames {
      WordsPerFrameBounds(CalcFrameWidth(signals, 0), |ws|);
      if |a.responses| > 0 {
        ReadCut(a, b);
        FrameFromCut(signals, maxFrames, k + 1, [], t + 2 * Periods(b.responses[0]), a.Read().value.1, b.Read().value.1,
                     base + FrameRecords(signals, ws) + Clock(Periods(b.responses[0]), t));
      } else if |b.responses| > 0 {
        FrameFromCut(signals, maxFrames, k + 1, [], t + 2 * Periods(b.responses[0]), b.Read().value.1, b.Read().value.1,
                     base + FrameRecords(signals, ws) + Clock(Periods(b.responses[0]), t));
      }
    }
  }

  /** The closing GET_VALID check on the cut channel. */
  lemma FinalCheckCut(da: Dump, db: Dump)
    requires da.status == db.status && da.vcd == db.vcd && da.timestamp == db.timestamp && Prefix(da.chan, db.chan)
    ensures Truncated(da.chan, db.chan, FinalCheck(da), FinalCheck(db))
  {
    QueryCut(da.chan, db.chan, GetValid);
  }

  /** GET_DATA, the frames and the final check, on the cut channel. */
  lemma FromDataCut(signals: seq<Signal>, maxFrames: nat, offset: Word, a: Channel, b: Channel, hdr: seq<Record>)
    requires ValidTable(signals) && Prefix(a, b)
    ensures Truncated(a, b, FromData(signals, maxFrames, offset, a, hdr), FromData(signals, maxFrames, offset, b, hdr))
  {
    QueryCut(a, b, GetData);
    if Query(b, GetData).Reply? {
      var cb := Query(b, GetData).chan;
      var ca := if Query(a, GetData).Reply? then Query(a, GetData).chan else cb;
      FrameFromCut(signals, maxFrames, 0, [], 2 * LeadPeriods(offset, Query(b, GetData).value), ca, cb,
                   hdr + Clock(LeadPeriods(offset, Query(b, GetData).value), 0));
      var da := FirstFrame(signals, maxFrames, 2 * LeadPeriods(offset, Query(b, GetData).value), ca,
                           hdr + Clock(LeadPeriods(offset, Query(b, GetData).value), 0));
      var db := FirstFrame(signals, maxFrames, 2 * LeadPeriods(offset, Query(b, GetData).value), cb,
                           hdr + Clock(LeadPeriods(offset, Query(b, GetData).value), 0));
      if da.status == db.status && da.vcd == db.vcd && da.timestamp == db.timestamp && Prefix(da.chan, db.chan) {
        FinalCheckCut(da, db);
      } else {
        FinalCheckCut(db, db);
      }
    }
  }

  /** The GET_OFFSET query and everything after it, on the cut channel. */
  lemma AfterCountCut(signals: seq<Signal>, maxFrames: nat, a: Channel, b: Channel, hdr: seq<Record>)
    requires ValidTable(signals) && Prefix(a, b)
    ensures Truncated(a, b, AfterCount(signals, maxFrames, a, hdr), AfterCount(signals, maxFrames, b, hdr))
  {
    QueryCut(a, b, GetOffset);
    if Query(b, GetOffset).Reply? {
      FromDataCut(signals, maxFrames, Query(b, GetOffset).value,
                  if Query(a, GetOffset).Reply? then Query(a, GetOffset).chan else Query(b, GetOffset).chan,
                  Query(b, GetOffset).chan, hdr);
    }
  }

  /** The GET_COUNT query and everything after it, on the cut channel. */
  lemma AfterWidthCut(signals: seq<Signal>, a: Channel, b: Channel, hdr: seq<Record>)
    requires ValidTable(signals) && Prefix(a, b)
    ensures Truncated(a, b, AfterWidth(signals, a, hdr), AfterWidth(signals, b, hdr))
  {
    QueryCut(a, b, GetCount);
    if Query(b, GetCount).Reply? {
      AfterCountCut(signals, Query(b, GetCount).value as nat,
                    if Query(a, GetCount).Reply? then Query(a, GetCount).chan else Query(b, GetCount).chan,
                    Query(b, GetCount).chan, hdr);
    }
  }

  /** The metadata queries and everything after them, on the cut channel. */
  lemma AfterReadyCut(signals: seq<Signal>, a: Channel, b: Channel, hdr: seq<Record>)
    requires ValidTable(signals) && Prefix(a, b)
    ensures Truncated(a, b, AfterReady(signals, a, hdr), AfterReady(signals, b, hdr))
  {
    QueryCut(a, b, GetWidth);
    if Query(b, GetWidth).Reply? && Query(b, GetWidth).value as nat == CalcFrameWidth(signals, 0) {
      var b1 := Query(b, GetWidth).chan;
      AfterWidthCut(signals, if Query(a, GetWidth).Reply? then Query(a, GetWidth).chan else b1, b1, hdr);
    }
  }

  /** The readiness poll and everything after it, on the cut channel. */
  lemma FromPollCut(signals: seq<Signal>, a: Channel, b: Channel, hdr: seq<Record>)
    requires ValidTable(signals) && Prefix(a, b)
    ensures Truncated(a, b, FromPoll(signals, a, hdr), FromPoll(signals, b, hdr))
  {
    PollCut(a, b);
    if Poll(b).0 {
      AfterReadyCut(signals, if Poll(a).0 then Poll(a).1 else Poll(b).1, Poll(b).1, hdr);
    }
  }

  /** GET_VALID, the poll and everything after it, on the cut channel. */
  lemma DrainCut(signals: seq<Signal>, a: Channel, b: Channel, hdr: seq<Record>)
    requires ValidTable(signals) && Prefix(a, b)
    ensures Truncated(a, b, Drain(signals, a, hdr), Drain(signals, b, hdr))
  {
    if b.writesLeft > 0 {
      FromPollCut(signals, if a.writesLeft > 0 then a.Write(Code(GetValid)).value else b.Write(Code(GetValid)).value,
                  b.Write(Code(GetValid)).value, hdr);
    }
  }

  /** vx_scope_stop as a whole, on the cut channel. */
  lemma StopCut(signals: seq<Signal>, hasHandle: bool, delay: Word, a: Channel, b: Channel)
    requires ValidTable(signals) && Prefix(a, b)
    ensures Truncated(a, b, StopSpec(signals, hasHandle, delay, a), StopSpec(signals, hasHandle, delay, b))
  {
    if hasHandle {
      if delay == NO_DELAY {
        DrainCut(signals, a, b, Header(signals));
      } else if b.writesLeft > 0 {
        var wb := b.Write(Command(SetStop, delay)).value;
        var wa := if a.writesLeft > 0 then a.Write(Command(SetStop, delay)).value else wb;
        DrainCut(signals, wa, wb, Header(signals));
      }
    }
  }

  /** A device whose answers stop before the last one vx_scope_stop reads makes it return
      -1, rather than leave a silently truncated dump: in particular a stream one word
      short fails. */
  lemma TruncatedStreamFails(signals: seq<Signal>, rec: Recording, delay: Word, zeros: nat, ch: Channel, n: nat)
    requires WellFormed(signals, rec) && CalcFrameWidth(signals, 0) > 0
    requires ch.responses == Responses(rec, EncodeFrames(rec), zeros)
    requires 2 * WordsPerFrame(CalcFrameWidth(signals, 0)) + 7 <= ch.writesLeft
    requires n < |ch.responses|
    ensures StopSpec(signals, true, delay, Channel(ch.responses[..n], ch.writesLeft, ch.log)).status == ERR
  {
    StopDecodesEncodedRecording(signals, rec, delay, zeros, ch);
    StopCut(signals, true, delay, Channel(ch.responses[..n], ch.writesLeft, ch.log), ch);
  }

  /** A channel that completes fewer writes than the dump needs (two per body word of the
      last frame, five queries, the final check and, when armed, SET_STOP) makes
      vx_scope_stop return -1. */
  lemma WriteBudgetFails(signals: seq<Signal>, rec: Recording, delay: Word, zeros: nat, ch: Channel, w: nat)
    requires WellFormed(signals, rec) && CalcFrameWidth(signals, 0) > 0
    requires ch.responses == Responses(rec, EncodeFrames(rec), zeros)
    requires 2 * WordsPerFrame(CalcFrameWidth(signals, 0)) + 7 <= ch.writesLeft
    requires w < 2 * WordsPerFrame(CalcFrameWidth(signals, 0)) + (if delay == NO_DELAY then 6 else 7)
    ensures StopSpec(signals, true, delay, Channel(ch.responses, w, ch.log)).status == ERR
  {
    StopDecodesEncodedRecording(signals, rec, delay, zeros, ch);
    StopCut(signals, true, delay, Channel(ch.responses, w, ch.log), ch);
  }
}
