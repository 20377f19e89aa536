/** vx_scope_start and vx_scope_stop: the command protocol that arms and drains the
    on-device recorder, the frame decoder, and the VCD dump they drive. */
module Scope {
  import opened Commands
  import opened Registers
  import opened Signals
  import opened Bits
  import opened Vcd
  import opened Frames

  /** The conditions under which the driver terminates the process instead of returning:
      std::abort on a frame width mismatch, and its two assert()s on the valid flag. */
  datatype Fault = WidthMismatch | LastFrameNotValid | StillValid

  /** How a call ends: it returns a status code, or the process is aborted. */
  datatype Status = Returned(code: int) | Aborted(fault: Fault)

  /** The state a dump ends in: its status, the channel (responses left and commands
      written), the VCD records written and the clock timestamp reached. */
  datatype Dump = Dump(status: Status, chan: Channel, vcd: seq<Record>, timestamp: nat)

  const OK: Status := Returned(0)

  /** A null handle or a failed register access (CHECK_RES) returns -1. */
  const ERR: Status := Returned(-1)

  function Fail(ch: Channel, vcd: seq<Record>, t: nat): Dump
  {
    Dump(ERR, ch, vcd, t)
  }

  // ----- vx_scope_start -------------------------------------------------------------

  /** vx_scope_start: without a handle it returns -1; with the "no delay" sentinel it writes
      nothing; otherwise it writes exactly one SET_DELAY command carrying the delay (modulo
      2^61), returning -1 if that write fails. It never reads. */
  function ScopeStart(hasHandle: bool, delay: Word, ch: Channel): (r: (int, Channel))
    ensures r.1.responses == ch.responses
    ensures r.0 == 0 || r.0 == -1
    ensures r.0 == -1 <==> !hasHandle || (delay != NO_DELAY && ch.writesLeft == 0)
    ensures r.0 == -1 || delay == NO_DELAY ==> r.1.log == ch.log
    ensures r.0 == 0 && delay != NO_DELAY ==>
      |r.1.log| == |ch.log| + 1 && r.1.log[..|ch.log|] == ch.log &&
      DecodeCommand(r.1.log[|ch.log|]) == Some((SetDelay, delay & PAYLOAD_MASK))
  {
    if !hasHandle then (-1, ch)
    else if delay != NO_DELAY then
      match ch.Write(Command(SetDelay, delay))
      case None => (-1, ch)
      case Some(c) =>
        DecodeCommandOfCommand(SetDelay, delay);
        (0, c)
    else (0, ch)
  }

  // ----- the specification of vx_scope_stop ----------------------------------------

  /** The readiness poll: GET_VALID responses are read until one is nonzero. The result
      says whether a nonzero response arrived before the responses ran out. */
  function Poll(ch: Channel): (r: (bool, Channel))
    ensures r.1.log == ch.log && r.1.writesLeft == ch.writesLeft
    ensures |r.1.responses| <= |ch.responses|
    ensures r.0 ==> |r.1.responses| < |ch.responses| && ch.responses[|ch.responses| - |r.1.responses| - 1] != 0
    ensures r.1.responses == ch.responses[|ch.responses| - |r.1.responses|..]
    ensures forall i :: 0 <= i < |ch.responses| - |r.1.responses| - (if r.0 then 1 else 0) ==> ch.responses[i] == 0
    decreases |ch.responses|
  {
    match ch.Read()
    case None => (false, ch)
    case Some((valid, c)) => if valid != 0 then (true, c) else Poll(c)
  }

  /** Clock periods before the first frame: offset + delta + 2, computed in 64-bit
      unsigned arithmetic. */
  function LeadPeriods(offset: Word, delta: Word): nat
  {
    (offset as nat + delta as nat + 2) % 0x1_0000_0000_0000_0000
  }

  /** Clock periods between consecutive frames: delta + 1, computed in 64-bit unsigned
      arithmetic (an all-ones delta wraps to zero periods). */
  function Periods(delta: Word): nat
  {
    if delta == 0xFFFF_FFFF_FFFF_FFFF then 0 else delta as nat + 1
  }

  /** Decoding from frame `k` on, when `ws` are the body words of frame `k` read so far and
      `base` is the output up to the start of frame `k`'s values. Before every word of the
      last frame the valid flag is re-checked and GET_DATA re-issued. */
  function FrameFrom(signals: seq<Signal>, maxFrames: nat, k: nat, ws: seq<Word>, t: nat, ch: Channel, base: seq<Record>): Dump
    requires ValidTable(signals)
    decreases |ch.responses|, 1
  {
    if k + 1 == maxFrames then
      match Query(ch, GetValid)
      case NoReply(c1) => Fail(c1, base + Partial(signals, ws), t)
      case Reply(valid, c2) =>
        if valid != 1 then Dump(Aborted(LastFrameNotValid), c2, base + Partial(signals, ws), t)
        else
          match c2.Write(Code(GetData))
          case None => Fail(c2, base + Partial(signals, ws), t)
          case Some(c3) => ReadWord(signals, maxFrames, k, ws, t, c3, base)
    else ReadWord(signals, maxFrames, k, ws, t, ch, base)
  }

  /** Decoding from the first frame, with nothing of it read yet. */
  function FirstFrame(signals: seq<Signal>, maxFrames: nat, t: nat, ch: Channel, base: seq<Record>): Dump
    requires ValidTable(signals)
  {
    FrameFrom(signals, maxFrames, 0, [], t, ch, base)
  }

  /** Reads the next body word of frame `k`. */
  function ReadWord(signals: seq<Signal>, maxFrames: nat, k: nat, ws: seq<Word>, t: nat, ch: Channel, base: seq<Record>): Dump
    requires ValidTable(signals)
    decreases |ch.responses|, 0
  {
    match ch.Read()
    case None => Fail(ch, base + Partial(signals, ws), t)
    case Some((w, c)) => AfterWord(signals, maxFrames, k, ws + [w], t, c, base)
  }

  /** After a body word: either the frame goes on, or it is complete, its records are
      emitted and, unless it was the last, the next delta is read and the clock advanced
      by delta + 1 periods. The loop stops when the frame count reaches `maxFrames`. */
  function AfterWord(signals: seq<Signal>, maxFrames: nat, k: nat, ws: seq<Word>, t: nat, ch: Channel, base: seq<Record>): Dump
    requires ValidTable(signals)
    decreases |ch.responses|, 2
  {
    var fw := CalcFrameWidth(signals, 0);
    if |ws| < WordsPerFrame(fw) then
      if k == maxFrames then Dump(OK, ch, base + Partial(signals, ws), t)
      else FrameFrom(signals, maxFrames, k, ws, t, ch, base)
    else
      WordsPerFrameBounds(fw, |ws|);
      var out := base + FrameRecords(signals, ws);
      if k + 1 == maxFrames then Dump(OK, ch, out, t)
      else
        match ch.Read()
        case None => Fail(ch, out, t)
        case Some((delta, c)) =>
          var n := Periods(delta);
          FrameFrom(signals, maxFrames, k + 1, [], t + 2 * n, c, out + Clock(n, t))
  }

  /** After the frames: GET_VALID must now read 0. */
  function FinalCheck(d: Dump): Dump
  {
    if d.status != OK then d
    else
      match Query(d.chan, GetValid)
      case NoReply(c) => Fail(c, d.vcd, d.timestamp)
      case Reply(valid, c) => Dump(if valid != 0 then Aborted(StillValid) else OK, c, d.vcd, d.timestamp)
  }

  /** A command write followed by a response read, failing at whichever access fails. */
  datatype Reply = Reply(value: Word, chan: Channel) | NoReply(chan: Channel)

  function Query(ch: Channel, op: Opcode): (r: Reply)
    ensures r.Reply? <==> ch.writesLeft > 0 && |ch.responses| > 0
    ensures r.Reply? ==> r.value == ch.responses[0] && r.chan.responses == ch.responses[1..]
    ensures r.NoReply? ==> r.chan.responses == ch.responses
  {
    match ch.Write(Code(op))
    case None => NoReply(ch)
    case Some(c1) =>
      match c1.Read()
      case None => NoReply(c1)
      case Some((v, c2)) => Reply(v, c2)
  }

  /** From the GET_WIDTH exchange on, once the recorder reported ready. */
  function AfterReady(signals: seq<Signal>, ch: Channel, hdr: seq<Record>): Dump
    requires ValidTable(signals)
  {
    match Query(ch, GetWidth)
    case NoReply(c) => Fail(c, hdr, 0)
    case Reply(frameWidth, c1) =>
      if frameWidth as nat != CalcFrameWidth(signals, 0) then Dump(Aborted(WidthMismatch), c1, hdr, 0)
      else AfterWidth(signals, c1, hdr)
  }

  /** From the GET_COUNT exchange on, once the frame width matched. */
  function AfterWidth(signals: seq<Signal>, ch: Channel, hdr: seq<Record>): Dump
    requires ValidTable(signals)
  {
    match Query(ch, GetCount)
    case NoReply(c) => Fail(c, hdr, 0)
    case Reply(maxFrames, c2) => AfterCount(signals, maxFrames as nat, c2, hdr)
  }

  /** From the GET_OFFSET exchange on, once the frame count is known. */
  function AfterCount(signals: seq<Signal>, maxFrames: nat, ch: Channel, hdr: seq<Record>): Dump
    requires ValidTable(signals)
  {
    match Query(ch, GetOffset)
    case NoReply(c) => Fail(c, hdr, 0)
    case Reply(offset, c3) => FromData(signals, maxFrames, offset, c3, hdr)
  }

  /** GET_DATA, the first delta, the clock up to the first frame, the frames and the final
      valid check. */
  function FromData(signals: seq<Signal>, maxFrames: nat, offset: Word, ch: Channel, hdr: seq<Record>): Dump
    requires ValidTable(signals)
  {
    match Query(ch, GetData)
    case NoReply(c) => Fail(c, hdr, 0)
    case Reply(delta, c) =>
      var n := LeadPeriods(offset, delta);
      FinalCheck(FirstFrame(signals, maxFrames, 2 * n, c, hdr + Clock(n, 0)))
  }

  /** Everything vx_scope_stop does once the header is written. */
  function Drain(signals: seq<Signal>, ch: Channel, hdr: seq<Record>): Dump
    requires ValidTable(signals)
  {
    match ch.Write(Code(GetValid))
    case None => Fail(ch, hdr, 0)
    case Some(c1) => FromPoll(signals, c1, hdr)
  }

  /** The readiness poll, once GET_VALID is written, and everything after it. */
  function FromPoll(signals: seq<Signal>, ch: Channel, hdr: seq<Record>): Dump
    requires ValidTable(signals)
  {
    var (ready, c2) := Poll(ch);
    if !ready then Fail(c2, hdr, 0) else AfterReady(signals, c2, hdr)
  }

  /** vx_scope_stop as a whole. */
  function StopSpec(signals: seq<Signal>, hasHandle: bool, delay: Word, ch: Channel): Dump
    requires ValidTable(signals)
  {
    if !hasHandle then Fail(ch, [], 0)
    else if delay == NO_DELAY then Drain(signals, ch, Header(signals))
    else
      match ch.Write(Command(SetStop, delay))
      case None => Fail(ch, [], 0)
      case Some(c) => Drain(signals, c, Header(signals))
  }

  // ----- vx_scope_stop ---------------------------------------------------------------

  /** vx_scope_stop: arms the stop delay, writes the header, waits for the recording, reads
      the metadata, checks the frame width, decodes every frame and checks the valid flag. */
  method ScopeStop(signals: seq<Signal>, hasHandle: bool, delay: Word, ch0: Channel) returns (d: Dump)
    requires ValidTable(signals)
    ensures d == StopSpec(signals, hasHandle, delay, ch0)
  {
    if !hasHandle {
      return Fail(ch0, [], 0);
    }
    var ch := ch0;
    if delay != NO_DELAY {
      var w := ch.Write(Command(SetStop, delay));
      if w.None? {
        return Fail(ch, [], 0);
      }
      ch := w.value;
    }
    var vcd := WriteHeader(signals);
    d := DrainTrace(signals, ch, vcd);
  }

  /** The part of vx_scope_stop after the header: poll, metadata, frames, final check. */
  method DrainTrace(signals: seq<Signal>, ch0: Channel, hdr: seq<Record>) returns (d: Dump)
    requires ValidTable(signals)
    ensures d == Drain(signals, ch0, hdr)
  {
    var w := ch0.Write(Code(GetValid));
    if w.None? {
      return Fail(ch0, hdr, 0);
    }
    var ch := w.value;
    // wait for the recording to terminate
    while true
      invariant Poll(ch) == Poll(w.value)
      decreases |ch.responses|
    {
      var r := ch.Read();
      if r.None? {
        return Fail(ch, hdr, 0);
      }
      ch := r.value.1;
      if r.value.0 != 0 {
        break;
      }
    }
    d := ReadMetadataAndFrames(signals, ch, hdr);
  }

  /** Reads frame width, frame count and offset, starts the data stream and decodes it. */
  method ReadMetadataAndFrames(signals: seq<Signal>, ch0: Channel, hdr: seq<Record>) returns (d: Dump)
    requires ValidTable(signals)
    ensures d == AfterReady(signals, ch0, hdr)
  {
    var q := Query(ch0, GetWidth);
    if q.NoReply? { return Fail(q.chan, hdr, 0); }
    var frameWidth := q.value;
    if frameWidth as nat != CalcFrameWidth(signals, 0) {
      return Dump(Aborted(WidthMismatch), q.chan, hdr, 0);
    }
    q := Query(q.chan, GetCount);
    if q.NoReply? { return Fail(q.chan, hdr, 0); }
    var maxFrames := q.value;
    q := Query(q.chan, GetOffset);
    if q.NoReply? { return Fail(q.chan, hdr, 0); }
    var offset := q.value;
    d := DumpFrames(signals, maxFrames as nat, offset, q.chan, hdr);
  }

  /** Starts the data stream, prints the clock up to the first frame, decodes the frames
      and checks that no data is left valid. */
  method DumpFrames(signals: seq<Signal>, maxFrames: nat, offset: Word, ch: Channel, hdr: seq<Record>) returns (d: Dump)
    requires ValidTable(signals)
    ensures d == FromData(signals, maxFrames, offset, ch, hdr)
  {
    var q := Query(ch, GetData);
    if q.NoReply? { return Fail(q.chan, hdr, 0); }
    var delta := q.value;
    var vcd, timestamp := PrintClock(hdr, LeadPeriods(offset, delta), 0);

    d := DecodeFrames(signals, maxFrames, q.chan, vcd, timestamp);
    if d.status != OK {
      return d;
    }

    // verify the data is no longer valid
    q := Query(d.chan, GetValid);
    if q.NoReply? { return Fail(q.chan, d.vcd, d.timestamp); }
    var dataValid := q.value;
    d := Dump(if dataValid != 0 then Aborted(StillValid) else OK, q.chan, d.vcd, d.timestamp);
  }

  /** The decoder's position inside a frame: `fo` bits of the body words `ws` consumed,
      signal `sid` being filled, `so` of its bits consumed. */
  ghost predicate Position(signals: seq<Signal>, ws: seq<Word>, sid: nat, so: nat, fo: nat)
  {
    ValidTable(signals) && 1 <= sid <= |signals| && fo <= 64 * |ws| &&
    CalcFrameWidth(signals, sid) <= fo < CalcFrameWidth(signals, sid - 1) <= CalcFrameWidth(signals, 0) &&
    so == fo - CalcFrameWidth(signals, sid)
  }

  /** The first `so` consumed bits of signal `sid` are in `data`, the k-th consumed bit at
      index width-1-k. */
  ghost predicate Holds(signals: seq<Signal>, ws: seq<Word>, data: seq<char>, sid: nat, so: nat)
  {
    1 <= sid <= |signals| && so <= signals[sid - 1].width < |data| &&
    CalcFrameWidth(signals, sid) + so <= 64 * |ws| &&
    forall i :: signals[sid - 1].width - so <= i < signals[sid - 1].width ==>
      data[i] == BitChar(FrameBit(ws, CalcFrameWidth(signals, sid) + (signals[sid - 1].width - 1 - i)))
  }

  ghost predicate Filling(signals: seq<Signal>, ws: seq<Word>, buf: array<char>, sid: nat, so: nat, fo: nat)
    reads buf
  {
    Position(signals, ws, sid, so, fo) && CalcFrameWidth(signals, 0) < buf.Length &&
    Holds(signals, ws, buf[..], sid, so)
  }

  /** Consuming one more bit: either the signal goes on, or it is complete and the next
      one (or, after the first declared signal, the end of the frame) begins. */
  lemma PositionStep(signals: seq<Signal>, ws: seq<Word>, sid: nat, so: nat, fo: nat)
    requires Position(signals, ws, sid, so, fo) && fo < 64 * |ws|
    ensures so < signals[sid - 1].width && fo + 1 <= CalcFrameWidth(signals, 0)
    ensures so + 1 < signals[sid - 1].width ==> Position(signals, ws, sid, so + 1, fo + 1)
    ensures so + 1 == signals[sid - 1].width ==>
      CalcFrameWidth(signals, sid - 1) == fo + 1 &&
      (sid == 1 <==> fo + 1 == CalcFrameWidth(signals, 0)) &&
      (sid > 1 ==> Position(signals, ws, sid - 1, 0, fo + 1))
  {
    if sid >= 2 {
      CalcFrameWidthDecreasing(signals, 0, sid - 1);
      CalcFrameWidthMonotone(signals, 0, sid - 2);
    }
  }

  /** Writing the next consumed bit at its place keeps the buffer in step. */
  lemma HoldsStep(signals: seq<Signal>, ws: seq<Word>, data: seq<char>, sid: nat, so: nat)
    requires Holds(signals, ws, data, sid, so) && so < signals[sid - 1].width
    requires CalcFrameWidth(signals, sid) + so < 64 * |ws|
    ensures Holds(signals, ws, data[signals[sid - 1].width - 1 - so := BitChar(FrameBit(ws, CalcFrameWidth(signals, sid) + so))], sid, so + 1)
  {
  }

  /** One step of the decoder's inner loop: frame bit `frameOffset`, taken from the current
      word, goes into the buffer; if it completes its signal, that signal's record is
      emitted and the next signal begins. */
  method ConsumeBit(signals: seq<Signal>, ghost ws: seq<Word>, word: Word, signalData: array<char>,
                    signalId: nat, signalOffset: nat, frameOffset: nat, vcd: seq<Record>, ghost base: seq<Record>)
    returns (nextId: nat, nextOffset: nat, nextFrameOffset: nat, out: seq<Record>)
    requires Filling(signals, ws, signalData, signalId, signalOffset, frameOffset)
    requires 64 * (|ws| - 1) <= frameOffset < 64 * |ws| && word == ws[|ws| - 1]
    requires vcd == base + Span(signals, ws, |signals|, signalId)
    modifies signalData
    ensures nextFrameOffset == frameOffset + 1 <= CalcFrameWidth(signals, 0)
    ensures nextId <= signalId && CalcFrameWidth(signals, nextId) <= nextFrameOffset
    ensures out == base + Span(signals, ws, |signals|, nextId)
    ensures nextFrameOffset < CalcFrameWidth(signals, 0) ==>
      Filling(signals, ws, signalData, nextId, nextOffset, nextFrameOffset)
    ensures nextFrameOffset == CalcFrameWidth(signals, 0) ==> nextId == 0 && nextOffset == 0
  {
    ghost var before := signalData[..];
    var signalWidth := signals[signalId - 1].width;
    StoreBit(ws, word, signalData, signalWidth - signalOffset - 1, frameOffset);
    FillingStep(signals, ws, before, signalData[..], signalId, signalOffset, frameOffset);
    nextId, nextOffset, nextFrameOffset, out := signalId, signalOffset + 1, frameOffset + 1, vcd;
    if nextOffset == signalWidth {
      out := EmitSignal(signals, ws, signalData, signalId, vcd, base);
      nextOffset := 0;
      nextId := signalId - 1;
      if nextId >= 1 {
        HoldsStart(signals, ws, signalData[..], nextId, nextFrameOffset);
      }
    }
  }

  /** Frame bit `fo`, taken from the last word read, is stored as a character at index `i`. */
  method StoreBit(ghost ws: seq<Word>, word: Word, signalData: array<char>, i: nat, fo: nat)
    requires 64 * (|ws| - 1) <= fo < 64 * |ws| && word == ws[|ws| - 1]
    requires i < signalData.Length
    modifies signalData
    ensures signalData[..] == old(signalData[..])[i := BitChar(FrameBit(ws, fo))]
  {
    var wordOffset := fo % 64;
    FrameBitOfLastWord(ws, fo);
    signalData[i] := BitChar(WordBit(word, wordOffset));
  }

  /** Storing frame bit `fo` at its place in the buffer advances the decoder by one bit. */
  lemma FillingStep(signals: seq<Signal>, ws: seq<Word>, before: seq<char>, after: seq<char>, sid: nat, so: nat, fo: nat)
    requires Position(signals, ws, sid, so, fo) && fo < 64 * |ws|
    requires CalcFrameWidth(signals, 0) < |before| && Holds(signals, ws, before, sid, so)
    requires so < signals[sid - 1].width
    requires after == before[signals[sid - 1].width - 1 - so := BitChar(FrameBit(ws, fo))]
    ensures fo + 1 <= CalcFrameWidth(signals, 0) && |after| == |before|
    ensures Holds(signals, ws, after, sid, so + 1)
    ensures so + 1 < signals[sid - 1].width ==> Position(signals, ws, sid, so + 1, fo + 1)
    ensures so + 1 == signals[sid - 1].width ==>
      CalcFrameWidth(signals, sid - 1) == fo + 1 &&
      (sid == 1 <==> fo + 1 == CalcFrameWidth(signals, 0)) &&
      (sid > 1 ==> Position(signals, ws, sid - 1, 0, fo + 1))
  {
    PositionStep(signals, ws, sid, so, fo);
    HoldsStep(signals, ws, before, sid, so);
  }

  /** Nothing is yet required of the buffer when a signal begins. */
  lemma HoldsStart(signals: seq<Signal>, ws: seq<Word>, data: seq<char>, sid: nat, fo: nat)
    requires Position(signals, ws, sid, 0, fo) && CalcFrameWidth(signals, 0) < |data|
    ensures Holds(signals, ws, data, sid, 0)
  {
  }

  /** A signal whose bits are all in the buffer: the buffer is terminated after them and
      their string written as the signal's value. */
  method EmitSignal(signals: seq<Signal>, ghost ws: seq<Word>, signalData: array<char>, signalId: nat,
                    vcd: seq<Record>, ghost base: seq<Record>)
    returns (out: seq<Record>)
    requires 1 <= signalId <= |signals|
    requires Holds(signals, ws, signalData[..], signalId, signals[signalId - 1].width)
    requires vcd == base + Span(signals, ws, |signals|, signalId)
    modifies signalData
    ensures out == base + Span(signals, ws, |signals|, signalId - 1)
    ensures signalData[..] == old(signalData[..])[signals[signalId - 1].width := '\0']
  {
    var signalWidth := signals[signalId - 1].width;
    signalData[signalWidth] := '\0';
    SignalStringChars(signals, ws, signalId);
    assert signalData[..signalWidth] == SignalString(signals, ws, signalId);
    out := vcd + [Val(signalData[..signalWidth], signalId)];
  }

  /** The frame decoder: consumes body words bit by bit, least significant bit first,
      fills the signals from the last declared down to the first into the reused
      `signalData` buffer, emits each signal when complete, and at each frame boundary
      reads the next delta and advances the clock. */
  method DecodeFrames(signals: seq<Signal>, maxFrames: nat, ch0: Channel, vcd0: seq<Record>, t0: nat)
    returns (d: Dump)
    requires ValidTable(signals)
    ensures d == FirstFrame(signals, maxFrames, t0, ch0, vcd0)
  {
    var numSignals := |signals|;
    var frameWidth := CalcFrameWidth(signals, 0);
    WordsPerFrameBounds(frameWidth, 0);
    var ch, vcd, timestamp := ch0, vcd0, t0;
    var frameOffset: nat, frameNo: nat := 0, 0;
    var signalId: nat, signalOffset: nat := numSignals, 0;
    var signalData := new char[frameWidth + 1];
    ghost var ws: seq<Word> := [];
    ghost var base := vcd0;
    assert vcd == base + Span(signals, ws, numSignals, signalId);
    CalcFrameWidthMonotone(signals, 0, signalId - 1);
    HoldsStart(signals, ws, signalData[..], signalId, frameOffset);

    while true
      invariant Filling(signals, ws, signalData, signalId, signalOffset, frameOffset)
      invariant |ws| < WordsPerFrame(frameWidth) && frameOffset == 64 * |ws|
      invariant vcd == base + Span(signals, ws, numSignals, signalId)
      invariant FrameFrom(signals, maxFrames, frameNo, ws, timestamp, ch, base) == FirstFrame(signals, maxFrames, t0, ch0, vcd0)
      decreases |ch.responses|
    {
      SignalAtUnique(signals, frameOffset, signalId);
      var done, word;
      done, d, word, ch := FetchWord(signals, maxFrames, frameNo, ws, ch, vcd, timestamp, base);
      if done {
        return;
      }
      SpanExtend(signals, ws, [word], numSignals, signalId);
      ws := ws + [word];
      WordsPerFrameBounds(frameWidth, |ws| - 1);
      done, d, frameNo, signalId, signalOffset, frameOffset, ch, vcd, timestamp, ws, base :=
        DecodeWord(signals, maxFrames, frameNo, ws, word, signalData, signalId, signalOffset, frameOffset, ch, vcd, timestamp, base);
      if done {
        return;
      }
    }
  }

  /** The start of an outer iteration: before each word of the last frame, the valid flag
      is checked and GET_DATA re-issued; then the next body word is read. `done` says the
      decoder stops here with `d`. */
  method FetchWord(signals: seq<Signal>, maxFrames: nat, frameNo: nat, ghost ws: seq<Word>,
                   ch: Channel, vcd: seq<Record>, timestamp: nat, ghost base: seq<Record>)
    returns (done: bool, d: Dump, word: Word, next: Channel)
    requires ValidTable(signals)
    requires vcd == base + Partial(signals, ws)
    ensures done ==> d == FrameFrom(signals, maxFrames, frameNo, ws, timestamp, ch, base)
    ensures !done ==> |next.responses| < |ch.responses|
    ensures !done ==> FrameFrom(signals, maxFrames, frameNo, ws, timestamp, ch, base) ==
                      AfterWord(signals, maxFrames, frameNo, ws + [word], timestamp, next, base)
  {
    done, d, word, next := true, Fail(ch, vcd, timestamp), 0, ch;
    if frameNo + 1 == maxFrames {
      // verify the last frame is valid
      var q := Query(next, GetValid);
      if q.NoReply? {
        d := Fail(q.chan, vcd, timestamp);
        return;
      }
      var dataValid := q.value;
      if dataValid != 1 {
        d := Dump(Aborted(LastFrameNotValid), q.chan, vcd, timestamp);
        return;
      }
      var w := q.chan.Write(Code(GetData));
      if w.None? {
        d := Fail(q.chan, vcd, timestamp);
        return;
      }
      next := w.value;
    }
    // read the next data word
    var r := next.Read();
    if r.None? {
      d := Fail(next, vcd, timestamp);
      return;
    }
    done, word, next := false, r.value.0, r.value.1;
  }

  /** The inner loop of the decoder over the bits of one body word (the last of `ws`):
      it ends at the end of the word or of the frame. `done` says the decoder stops here
      with `d`; otherwise the outputs are the decoder's state at the next word. */
  method DecodeWord(signals: seq<Signal>, maxFrames: nat, frameNo: nat, ghost ws: seq<Word>, word: Word,
                    signalData: array<char>, signalId: nat, signalOffset: nat, frameOffset: nat,
                    ch: Channel, vcd: seq<Record>, timestamp: nat, ghost base: seq<Record>)
    returns (done: bool, d: Dump, nextFrameNo: nat, nextId: nat, nextOffset: nat, nextFrameOffset: nat,
             nextChan: Channel, nextVcd: seq<Record>, nextTimestamp: nat, ghost nextWs: seq<Word>,
             ghost nextBase: seq<Record>)
    requires Filling(signals, ws, signalData, signalId, signalOffset, frameOffset)
    requires 1 <= |ws| <= WordsPerFrame(CalcFrameWidth(signals, 0)) && word == ws[|ws| - 1]
    requires frameOffset == 64 * (|ws| - 1)
    requires vcd == base + Span(signals, ws, |signals|, signalId)
    modifies signalData
    ensures done ==> d == AfterWord(signals, maxFrames, frameNo, ws, timestamp, ch, base)
    ensures !done ==> Filling(signals, nextWs, signalData, nextId, nextOffset, nextFrameOffset)
    ensures !done ==> |nextWs| < WordsPerFrame(CalcFrameWidth(signals, 0)) && nextFrameOffset == 64 * |nextWs|
    ensures !done ==> nextVcd == nextBase + Span(signals, nextWs, |signals|, nextId)
    ensures !done ==> |nextChan.responses| <= |ch.responses|
    ensures !done ==> AfterWord(signals, maxFrames, frameNo, ws, timestamp, ch, base) ==
                      FrameFrom(signals, maxFrames, nextFrameNo, nextWs, nextTimestamp, nextChan, nextBase)
  {
    var frameWidth := CalcFrameWidth(signals, 0);
    done, d := false, Fail(ch, vcd, timestamp);
    nextFrameNo, nextChan, nextTimestamp, nextWs, nextBase := frameNo, ch, timestamp, ws, base;
    nextId, nextOffset, nextFrameOffset, nextVcd :=
      ScanWord(signals, ws, word, signalData, signalId, signalOffset, frameOffset, vcd, base);

    if nextFrameOffset == frameWidth {
      WordsPerFrameBounds(frameWidth, |ws|);
      nextFrameOffset := 0;
      done, d, nextFrameNo, nextChan, nextVcd, nextTimestamp :=
        FinishFrame(signals, maxFrames, frameNo, ws, ch, nextVcd, timestamp, base);
      if done {
        return;
      }
      nextId := |signals|;
      nextWs, nextBase := [], nextVcd;
      FrameStart(signals, signalData[..]);
      return;
    }

    WordBoundary(signals, maxFrames, frameNo, ws, timestamp, ch, base, nextId, nextOffset, nextFrameOffset);
    if frameNo == maxFrames {
      done, d := true, Dump(OK, ch, nextVcd, timestamp);
    }
  }

  /** The inner loop over the bits of one word: bits are consumed until the word or the
      frame ends, whichever comes first. */
  method ScanWord(signals: seq<Signal>, ghost ws: seq<Word>, word: Word, signalData: array<char>,
                  signalId: nat, signalOffset: nat, frameOffset: nat, vcd: seq<Record>, ghost base: seq<Record>)
    returns (nextId: nat, nextOffset: nat, nextFrameOffset: nat, out: seq<Record>)
    requires Filling(signals, ws, signalData, signalId, signalOffset, frameOffset)
    requires 1 <= |ws| && word == ws[|ws| - 1] && frameOffset == 64 * (|ws| - 1)
    requires vcd == base + Span(signals, ws, |signals|, signalId)
    modifies signalData
    ensures 64 * (|ws| - 1) < nextFrameOffset <= 64 * |ws| && nextFrameOffset <= CalcFrameWidth(signals, 0)
    ensures nextId <= |signals| && CalcFrameWidth(signals, nextId) <= nextFrameOffset
    ensures out == base + Span(signals, ws, |signals|, nextId)
    ensures nextFrameOffset == CalcFrameWidth(signals, 0) ==> nextId == 0 && nextOffset == 0
    ensures nextFrameOffset < CalcFrameWidth(signals, 0) ==>
      nextFrameOffset % 64 == 0 && Filling(signals, ws, signalData, nextId, nextOffset, nextFrameOffset)
  {
    nextId, nextOffset, nextFrameOffset, out := signalId, signalOffset, frameOffset, vcd;
    while true
      invariant Filling(signals, ws, signalData, nextId, nextOffset, nextFrameOffset)
      invariant 64 * (|ws| - 1) <= nextFrameOffset < 64 * |ws|
      invariant out == base + Span(signals, ws, |signals|, nextId)
      decreases 64 * |ws| - nextFrameOffset
    {
      nextId, nextOffset, nextFrameOffset, out :=
        ConsumeBit(signals, ws, word, signalData, nextId, nextOffset, nextFrameOffset, out, base);
      if nextFrameOffset == CalcFrameWidth(signals, 0) || nextFrameOffset % 64 == 0 {
        return;
      }
    }
  }

  /** At the start of a frame nothing is consumed and the last declared signal is next. */
  lemma FrameStart(signals: seq<Signal>, data: seq<char>)
    requires ValidTable(signals) && CalcFrameWidth(signals, 0) < |data|
    ensures Position(signals, [], |signals|, 0, 0) && Holds(signals, [], data, |signals|, 0)
    ensures 0 < WordsPerFrame(CalcFrameWidth(signals, 0))
    ensures Span(signals, [], |signals|, |signals|) == []
  {
    CalcFrameWidthMonotone(signals, 0, |signals| - 1);
    WordsPerFrameBounds(CalcFrameWidth(signals, 0), 0);
  }

  /** The decoder reaches the end of a word inside a frame: all of the word is consumed,
      the frame needs more words, and decoding stops (with the signals completed so far)
      only if the frame count already equals `maxFrames`. */
  lemma WordBoundary(signals: seq<Signal>, maxFrames: nat, k: nat, ws: seq<Word>, t: nat, ch: Channel, base: seq<Record>,
                     sid: nat, so: nat, fo: nat)
    requires Position(signals, ws, sid, so, fo)
    requires 64 * (|ws| - 1) < fo && fo % 64 == 0
    ensures fo == 64 * |ws| && |ws| < WordsPerFrame(CalcFrameWidth(signals, 0))
    ensures AfterWord(signals, maxFrames, k, ws, t, ch, base) ==
      if k == maxFrames then Dump(OK, ch, base + Span(signals, ws, |signals|, sid), t)
      else FrameFrom(signals, maxFrames, k, ws, t, ch, base)
  {
    assert fo == 64 * |ws|;
    WordsPerFrameBounds(CalcFrameWidth(signals, 0), |ws|);
    SignalAtUnique(signals, fo, sid);
  }

  /** The end of a frame: the frame count rises and, unless it reached `maxFrames`, the
      next delta is read and the clock advanced by delta + 1 periods. */
  method FinishFrame(signals: seq<Signal>, maxFrames: nat, frameNo: nat, ghost ws: seq<Word>,
                     ch: Channel, vcd: seq<Record>, timestamp: nat, ghost base: seq<Record>)
    returns (done: bool, d: Dump, nextFrameNo: nat, nextChan: Channel, nextVcd: seq<Record>, nextTimestamp: nat)
    requires ValidTable(signals)
    requires WordsPerFrame(CalcFrameWidth(signals, 0)) <= |ws| && CalcFrameWidth(signals, 0) <= 64 * |ws|
    requires vcd == base + FrameRecords(signals, ws)
    ensures nextFrameNo == frameNo + 1
    ensures done ==> d == AfterWord(signals, maxFrames, frameNo, ws, timestamp, ch, base)
    ensures !done ==> |nextChan.responses| < |ch.responses|
    ensures !done ==> AfterWord(signals, maxFrames, frameNo, ws, timestamp, ch, base) ==
                      FrameFrom(signals, maxFrames, nextFrameNo, [], nextTimestamp, nextChan, nextVcd)
  {
    nextFrameNo := frameNo + 1;
    done, d, nextChan, nextVcd, nextTimestamp := true, Dump(OK, ch, vcd, timestamp), ch, vcd, timestamp;
    if nextFrameNo != maxFrames {
      // advance the clock by the next delta
      var r := ch.Read();
      if r.None? {
        d := Fail(ch, vcd, timestamp);
        return;
      }
      var delta := r.value.0;
      nextChan := r.value.1;
      nextVcd, nextTimestamp := PrintClock(vcd, Periods(delta), timestamp);
      done := false;
    }
  }
}
