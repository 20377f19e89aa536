/** A reference recorder: what the device must answer for a recording of signal values,
    and the theorem that vx_scope_stop turns those answers back into exactly the recorded
    values, frame by frame, on the clock the deltas describe. */
module RoundTrip {
  import opened Commands
  import opened Registers
  import opened Signals
  import opened Bits
  import opened Vcd
  import opened Frames
  import opened Scope

  /** One captured frame: the cycles since the previous one, and the value of every signal
      in declaration order, as a VCD binary string. */
  datatype Frame = Frame(delta: Word, values: seq<string>)

  /** A whole recording with the metadata the device reports for it. */
  datatype Recording = Recording(count: Word, width: Word, offset: Word, frames: seq<Frame>)

  predicate FrameFits(signals: seq<Signal>, f: Frame)
  {
    |f.values| == |signals| &&
    forall i :: 0 <= i < |signals| ==> |f.values[i]| == signals[i].width && IsBinary(f.values[i])
  }

  /** The device reports the true frame count and frame width, and every frame holds one
      binary value of the right width per signal. */
  predicate WellFormed(signals: seq<Signal>, rec: Recording)
  {
    ValidTable(signals) && |rec.frames| >= 1 &&
    rec.count as nat == |rec.frames| && rec.width as nat == CalcFrameWidth(signals, 0) &&
    forall k :: 0 <= k < |rec.frames| ==> FrameFits(signals, rec.frames[k])
  }

  // ----- one frame ---------------------------------------------------------------------

  /** The bits of the values of signals[index..] in recording order: the last declared
      signal first, each value least significant bit first. */
  function LayoutBits(values: seq<string>, index: nat): seq<bool>
    decreases |values| - index
  {
    if index < |values| then LayoutBits(values, index + 1) + StringToBits(values[index]) else []
  }

  lemma {:induction false} LayoutLength(signals: seq<Signal>, f: Frame, index: nat)
    requires FrameFits(signals, f) && index <= |signals|
    ensures |LayoutBits(f.values, index)| == CalcFrameWidth(signals, index)
    decreases |signals| - index
  {
    if index < |signals| {
      LayoutLength(signals, f, index + 1);
    }
  }

  /** The bits of signals declared later come first. */
  lemma {:induction false} LayoutPrefix(values: seq<string>, i: nat, j: nat)
    requires i <= j
    ensures LayoutBits(values, j) <= LayoutBits(values, i)
    decreases j - i
  {
    if i < j {
      LayoutPrefix(values, i + 1, j);
      if i < |values| {
        assert LayoutBits(values, i + 1) <= LayoutBits(values, i);
      }
    }
  }

  /** The value of signal id index+1 starts at frame offset calcFrameWidth(index + 1). */
  lemma LayoutAt(signals: seq<Signal>, f: Frame, index: nat, k: nat)
    requires FrameFits(signals, f) && index < |signals| && k < signals[index].width
    ensures CalcFrameWidth(signals, index + 1) + k < |LayoutBits(f.values, 0)|
    ensures LayoutBits(f.values, 0)[CalcFrameWidth(signals, index + 1) + k] == StringToBits(f.values[index])[k]
  {
    LayoutLength(signals, f, index + 1);
    LayoutLength(signals, f, 0);
    LayoutLength(signals, f, index);
    LayoutPrefix(f.values, 0, index);
    var whole, mine := LayoutBits(f.values, 0), LayoutBits(f.values, index);
    assert mine[CalcFrameWidth(signals, index + 1) + k] == StringToBits(f.values[index])[k];
    assert whole[CalcFrameWidth(signals, index + 1) + k] == mine[CalcFrameWidth(signals, index + 1) + k];
  }

  function Min(a: nat, b: nat): nat
  {
    if a <= b then a else b
  }

  /** Body word j holds bits [64j, 64j + 64) of the frame. */
  function Chunk(bits: seq<bool>, j: nat): (c: seq<bool>)
    ensures |c| <= 64
  {
    bits[Min(64 * j, |bits|)..Min(64 * j + 64, |bits|)]
  }

  /** The body words of a frame: its bits packed least significant bit first, the last
      word padded with zeros. */
  function Pack(bits: seq<bool>): (ws: seq<Word>)
    ensures |ws| == WordsPerFrame(|bits|)
  {
    seq(WordsPerFrame(|bits|), j requires 0 <= j => PackWord(Chunk(bits, j)))
  }

  /** Bit p of the packed words is bit p of the frame. */
  lemma FrameBitOfPack(bits: seq<bool>, p: nat)
    requires p < |bits|
    ensures p < 64 * |Pack(bits)| && FrameBit(Pack(bits), p) == bits[p]
  {
    var j := p / 64;
    WordsPerFrameBounds(|bits|, j);
    var c := Chunk(bits, j);
    assert 64 * j <= p < 64 * j + 64;
    assert c == bits[64 * j..Min(64 * j + 64, |bits|)];
    assert p % 64 < |c|;
    WordBitOfPackWord(c, p % 64);
    assert c[p % 64] == bits[p];
  }

  /** The body words the device sends for a frame. */
  function EncodeFrame(f: Frame): seq<Word>
  {
    Pack(LayoutBits(f.values, 0))
  }

  /** The records a frame's values are expected to produce: ids N down to 1. */
  function FrameValues(f: Frame): (rs: seq<Record>)
    ensures |rs| == |f.values|
  {
    seq(|f.values|, k requires 0 <= k < |f.values| => Val(f.values[|f.values| - 1 - k], |f.values| - k))
  }

  /** The string decoded for signal `id` from an encoded frame is its recorded value. */
  lemma SignalOfEncodedFrame(signals: seq<Signal>, f: Frame, id: nat)
    requires ValidTable(signals) && FrameFits(signals, f) && 1 <= id <= |signals|
    requires CalcFrameWidth(signals, 0) <= 64 * |EncodeFrame(f)|
    ensures CalcFrameWidth(signals, id - 1) <= 64 * |EncodeFrame(f)|
    ensures SignalString(signals, EncodeFrame(f), id) == f.values[id - 1]
  {
    CalcFrameWidthMonotone(signals, 0, id - 1);
    forall m | 0 <= m < signals[id - 1].width
      ensures SignalBits(signals, EncodeFrame(f), id)[m] == StringToBits(f.values[id - 1])[m]
    {
      EncodedSignalBit(signals, f, id, m);
    }
    assert SignalBits(signals, EncodeFrame(f), id) == StringToBits(f.values[id - 1]);
    StringBitsRoundTrip([], f.values[id - 1]);
  }

  /** Bit k of signal `index` sits at its place in the encoded frame. */
  lemma EncodedBit(signals: seq<Signal>, f: Frame, index: nat, k: nat)
    requires FrameFits(signals, f) && index < |signals| && k < signals[index].width
    ensures CalcFrameWidth(signals, index + 1) + k < 64 * |EncodeFrame(f)|
    ensures FrameBit(EncodeFrame(f), CalcFrameWidth(signals, index + 1) + k) == StringToBits(f.values[index])[k]
  {
    var bits := LayoutBits(f.values, 0);
    LayoutAt(signals, f, index, k);
    forall p: nat | p < |bits|
      ensures p < 64 * |EncodeFrame(f)| && FrameBit(EncodeFrame(f), p) == bits[p]
    {
      FrameBitOfPack(bits, p);
    }
  }

  /** The same, numbering the signals from 1 as the decoder does. */
  lemma EncodedSignalBit(signals: seq<Signal>, f: Frame, id: nat, k: nat)
    requires FrameFits(signals, f) && 1 <= id <= |signals| && k < signals[id - 1].width
    ensures CalcFrameWidth(signals, id) + k < 64 * |EncodeFrame(f)|
    ensures FrameBit(EncodeFrame(f), CalcFrameWidth(signals, id) + k) == StringToBits(f.values[id - 1])[k]
  {
    var index := id - 1;
    EncodedBit(signals, f, index, k);
    assert CalcFrameWidth(signals, index + 1) == CalcFrameWidth(signals, id);
  }

  /** Decoding an encoded frame gives back every signal value, in the decoder's order. */
  lemma DecodeEncodedFrame(signals: seq<Signal>, f: Frame)
    requires ValidTable(signals) && FrameFits(signals, f)
    ensures |EncodeFrame(f)| == WordsPerFrame(CalcFrameWidth(signals, 0))
    ensures CalcFrameWidth(signals, 0) <= 64 * |EncodeFrame(f)|
    ensures FrameRecords(signals, EncodeFrame(f)) == FrameValues(f)
  {
    var ws := EncodeFrame(f);
    LayoutLength(signals, f, 0);
    WordsPerFrameBounds(CalcFrameWidth(signals, 0), 0);
    var n := |signals|;
    SpanShape(signals, ws, n, 0);
    forall k | 0 <= k < n
      ensures FrameRecords(signals, ws)[k] == FrameValues(f)[k]
    {
      SignalOfEncodedFrame(signals, f, n - k);
    }
  }

  // ----- the response stream -----------------------------------------------------------

  /** The responses to the body reads of a frame from word j on, followed by `rest`: in the
      last frame each word is preceded by the answer 1 to the GET_VALID query. */
  function BodyThen(ws: seq<Word>, j: nat, last: bool, rest: seq<Word>): seq<Word>
    decreases |ws| - j
  {
    if j < |ws| then WordThen(ws[j], last, BodyThen(ws, j + 1, last, rest)) else rest
  }

  /** The responses to one body read, followed by `rest`. */
  function WordThen(w: Word, last: bool, rest: seq<Word>): seq<Word>
  {
    if last then [1] + ([w] + rest) else [w] + rest
  }

  /** The commands written while reading n body words of a frame. */
  function BodyLog(n: nat, last: bool): seq<Word>
  {
    if n == 0 || !last then [] else [Code(GetValid), Code(GetData)] + BodyLog(n - 1, last)
  }

  lemma {:induction false} BodyLogLength(n: nat, last: bool)
    ensures |BodyLog(n, last)| == if last then 2 * n else 0
  {
    if n > 0 && last {
      BodyLogLength(n - 1, last);
    }
  }

  /** The writes of n body words: those of the first word, then those of the rest. */
  lemma BodyLogSplit(n: nat, last: bool)
    requires n > 0
    ensures |BodyLog(1, last)| + |BodyLog(n - 1, last)| == |BodyLog(n, last)|
    ensures BodyLog(n, last) == BodyLog(1, last) + BodyLog(n - 1, last)
  {
  }

  /** Reading body word j of frame k: in the last frame the GET_VALID query answered 1
      and the GET_DATA command come first. The frame then goes on, or is complete. */
  lemma WordStep(signals: seq<Signal>, maxFrames: nat, k: nat, ws: seq<Word>, j: nat,
                 t: nat, ch: Channel, base: seq<Record>, more: seq<Word>) returns (c: Channel)
    requires ValidTable(signals) && k < maxFrames
    requires |ws| == WordsPerFrame(CalcFrameWidth(signals, 0)) && j < |ws|
    requires ch.responses == WordThen(ws[j], k + 1 == maxFrames, more)
    requires |BodyLog(1, k + 1 == maxFrames)| <= ch.writesLeft
    ensures c == Channel(more, ch.writesLeft - |BodyLog(1, k + 1 == maxFrames)|, ch.log + BodyLog(1, k + 1 == maxFrames))
    ensures j + 1 < |ws| ==>
      FrameFrom(signals, maxFrames, k, ws[..j], t, ch, base) == FrameFrom(signals, maxFrames, k, ws[..j + 1], t, c, base)
    ensures j + 1 == |ws| ==>
      FrameFrom(signals, maxFrames, k, ws[..j], t, ch, base) == AfterWord(signals, maxFrames, k, ws, t, c, base)
  {
    assert ws[..j] + [ws[j]] == ws[..j + 1];
    if k + 1 == maxFrames {
      var c2 := Channel([ws[j]] + more, ch.writesLeft - 1, ch.log + [Code(GetValid)]);
      var c3 := Channel([ws[j]] + more, ch.writesLeft - 2, ch.log + [Code(GetValid)] + [Code(GetData)]);
      c := Channel(more, ch.writesLeft - 2, ch.log + [Code(GetValid), Code(GetData)]);
      assert Query(ch, GetValid) == Reply(1, c2);
      assert c2.Write(Code(GetData)) == Some(c3);
      assert ch.log + [Code(GetValid)] + [Code(GetData)] == ch.log + [Code(GetValid), Code(GetData)];
      assert c3.Read() == Some((ws[j], c));
      assert BodyLog(1, true) == [Code(GetValid), Code(GetData)];
    } else {
      c := Channel(more, ch.writesLeft, ch.log);
      assert ch.Read() == Some((ws[j], c));
    }
    assert FrameFrom(signals, maxFrames, k, ws[..j], t, ch, base) ==
           AfterWord(signals, maxFrames, k, ws[..j + 1], t, c, base);
    if j + 1 == |ws| {
      assert ws[..j + 1] == ws;
    }
  }

  /** Reading the body words j.. of frame k brings the decoder to the end of the frame. */
  lemma {:induction false} BodyWords(signals: seq<Signal>, maxFrames: nat, k: nat, ws: seq<Word>, j: nat,
                                     t: nat, ch: Channel, base: seq<Record>, rest: seq<Word>)
    requires ValidTable(signals) && k < maxFrames
    requires |ws| == WordsPerFrame(CalcFrameWidth(signals, 0)) && j < |ws|
    requires ch.responses == BodyThen(ws, j, k + 1 == maxFrames, rest)
    requires |BodyLog(|ws| - j, k + 1 == maxFrames)| <= ch.writesLeft
    ensures FrameFrom(signals, maxFrames, k, ws[..j], t, ch, base) ==
      AfterWord(signals, maxFrames, k, ws, t,
                Channel(rest, ch.writesLeft - |BodyLog(|ws| - j, k + 1 == maxFrames)|,
                        ch.log + BodyLog(|ws| - j, k + 1 == maxFrames)), base)
    decreases |ws| - j
  {
    var last := k + 1 == maxFrames;
    BodyLogSplit(|ws| - j, last);
    var c := WordStep(signals, maxFrames, k, ws, j, t, ch, base, BodyThen(ws, j + 1, last, rest));
    if j + 1 < |ws| {
      BodyWords(signals, maxFrames, k, ws, j + 1, t, c, base, rest);
      assert c.log + BodyLog(|ws| - (j + 1), last) == ch.log + BodyLog(|ws| - j, last);
    }
  }

  /** The body words of every frame of a recording decode to its values. */
  predicate Bodies(signals: seq<Signal>, rec: Recording, bodies: seq<seq<Word>>)
    requires ValidTable(signals)
  {
    |bodies| == |rec.frames| &&
    forall k :: 0 <= k < |bodies| ==>
      |bodies[k]| == WordsPerFrame(CalcFrameWidth(signals, 0)) &&
      CalcFrameWidth(signals, 0) <= 64 * |bodies[k]| &&
      FrameRecords(signals, bodies[k]) == FrameValues(rec.frames[k])
  }

  /** The body words the reference recorder sends for every frame. */
  function EncodeFrames(rec: Recording): (bodies: seq<seq<Word>>)
    ensures |bodies| == |rec.frames|
  {
    seq(|rec.frames|, k requires 0 <= k < |rec.frames| => EncodeFrame(rec.frames[k]))
  }

  lemma EncodeFramesBodies(signals: seq<Signal>, rec: Recording)
    requires WellFormed(signals, rec)
    ensures Bodies(signals, rec, EncodeFrames(rec))
  {
    forall k | 0 <= k < |rec.frames|
      ensures |EncodeFrames(rec)[k]| == WordsPerFrame(CalcFrameWidth(signals, 0))
      ensures CalcFrameWidth(signals, 0) <= 64 * |EncodeFrames(rec)[k]|
      ensures FrameRecords(signals, EncodeFrames(rec)[k]) == FrameValues(rec.frames[k])
    {
      assert FrameFits(signals, rec.frames[k]);
      DecodeEncodedFrame(signals, rec.frames[k]);
    }
  }

  /** The responses to frames k.. of a recording, followed by `rest`: each frame's body,
      and before every frame but the first its delta word. */
  function FramesThen(rec: Recording, bodies: seq<seq<Word>>, k: nat, rest: seq<Word>): seq<Word>
    requires |bodies| == |rec.frames|
    decreases |rec.frames| - k
  {
    if k + 1 < |rec.frames| then
      BodyThen(bodies[k], 0, false, [rec.frames[k + 1].delta] + FramesThen(rec, bodies, k + 1, rest))
    else if k < |rec.frames| then BodyThen(bodies[k], 0, true, rest)
    else rest
  }

  /** The clock periods the deltas of `frames` stand for, delta + 1 each. */
  function SumPeriods(frames: seq<Frame>): nat
  {
    if frames == [] then 0 else Periods(frames[0].delta) + SumPeriods(frames[1..])
  }

  lemma SumPeriodsStep(frames: seq<Frame>, i: nat)
    requires i < |frames|
    ensures SumPeriods(frames[i..]) == Periods(frames[i].delta) + SumPeriods(frames[i + 1..])
  {
    assert frames[i..][1..] == frames[i + 1..];
  }

  /** The VCD records `out` grows into with frames k.. of a recording: each frame's values,
      then, before the next frame, the clock periods its delta stands for. */
  function RenderFrom(rec: Recording, k: nat, t: nat, out: seq<Record>): seq<Record>
    decreases |rec.frames| - k
  {
    if k + 1 < |rec.frames| then
      RenderFrom(rec, k + 1, t + 2 * Periods(rec.frames[k + 1].delta),
                 out + FrameValues(rec.frames[k]) + Clock(Periods(rec.frames[k + 1].delta), t))
    else if k < |rec.frames| then out + FrameValues(rec.frames[k])
    else out
  }

  lemma RenderFromStep(rec: Recording, k: nat, t: nat, out: seq<Record>)
    requires k + 1 < |rec.frames|
    ensures RenderFrom(rec, k, t, out) ==
      RenderFrom(rec, k + 1, t + 2 * Periods(rec.frames[k + 1].delta),
                 out + FrameValues(rec.frames[k]) + Clock(Periods(rec.frames[k + 1].delta), t))
  {
  }

  /** The same step, with the next timestamp and output named by the caller. */
  lemma RenderFromStepAt(rec: Recording, k: nat, t: nat, out: seq<Record>, u: nat, o: seq<Record>)
    requires k + 1 < |rec.frames|
    requires u == t + 2 * Periods(rec.frames[k + 1].delta)
    requires o == out + FrameValues(rec.frames[k]) + Clock(Periods(rec.frames[k + 1].delta), t)
    ensures RenderFrom(rec, k, t, out) == RenderFrom(rec, k + 1, u, o)
  {
    RenderFromStep(rec, k, t, out);
  }

  /** A frame's values carry no timestamp. */
  lemma FrameValuesHaveNoTimes(f: Frame)
    ensures Times(FrameValues(f)) == []
  {
    NoTimes(FrameValues(f));
  }

  /** One frame of RenderFrom, for timestamps: the frame's values add none, the clock
      periods after it add the next 2n. */
  lemma RenderTimesStep(out: seq<Record>, fv: seq<Record>, n: nat, t: nat, rest: nat, total: nat, next: seq<Record>)
    requires Times(fv) == [] && total == n + rest
    requires Times(next) == Times(out + fv + Clock(n, t)) + Ticks(t + 2 * n, 2 * rest)
    ensures Times(next) == Times(out) + Ticks(t, 2 * total)
  {
    TimesAppend(out, fv);
    TimesAppend(out + fv, Clock(n, t));
    ClockTicks(n, t);
    ConcatTicks(Times(out), t, 2 * n, 2 * rest);
  }

  /** Rendering frames k.. from timestamp `t` adds the timestamps t, t+1, ... up to the
      clock periods of the remaining deltas, in order and each once. */
  lemma {:induction false} RenderFromTimes(rec: Recording, k: nat, t: nat, out: seq<Record>)
    requires k < |rec.frames|
    ensures Times(RenderFrom(rec, k, t, out)) == Times(out) + Ticks(t, 2 * SumPeriods(rec.frames[k + 1..]))
    decreases |rec.frames| - k
  {
    FrameValuesHaveNoTimes(rec.frames[k]);
    if k + 1 < |rec.frames| {
      var o := out + FrameValues(rec.frames[k]) + Clock(Periods(rec.frames[k + 1].delta), t);
      var u := t + 2 * Periods(rec.frames[k + 1].delta);
      RenderFromTimes(rec, k + 1, u, o);
      RenderFromStepAt(rec, k, t, out, u, o);
      SumPeriodsStep(rec.frames, k + 1);
      RenderTimesStep(out, FrameValues(rec.frames[k]), Periods(rec.frames[k + 1].delta), t,
                      SumPeriods(rec.frames[k + 1 + 1..]), SumPeriods(rec.frames[k + 1..]),
                      RenderFrom(rec, k, t, out));
    } else {
      TimesAppend(out, FrameValues(rec.frames[k]));
      assert rec.frames[k + 1..] == [];
      assert Ticks(t, 0) == [];
    }
  }

  /** Reading all body words of a frame: the decoder reaches the end of the frame. */
  lemma WholeFrame(signals: seq<Signal>, maxFrames: nat, k: nat, ws: seq<Word>,
                   t: nat, ch: Channel, base: seq<Record>, more: seq<Word>)
    requires ValidTable(signals) && k < maxFrames && CalcFrameWidth(signals, 0) > 0
    requires |ws| == WordsPerFrame(CalcFrameWidth(signals, 0))
    requires ch.responses == BodyThen(ws, 0, k + 1 == maxFrames, more)
    requires 2 * |ws| <= ch.writesLeft
    ensures |BodyLog(|ws|, k + 1 == maxFrames)| == if k + 1 == maxFrames then 2 * |ws| else 0
    ensures FrameFrom(signals, maxFrames, k, [], t, ch, base) ==
      AfterWord(signals, maxFrames, k, ws, t,
                Channel(more, ch.writesLeft - |BodyLog(|ws|, k + 1 == maxFrames)|,
                        ch.log + BodyLog(|ws|, k + 1 == maxFrames)), base)
  {
    BodyLogLength(|ws|, k + 1 == maxFrames);
    WordsPerFrameBounds(CalcFrameWidth(signals, 0), 0);
    assert ws[..0] == [];
    BodyWords(signals, maxFrames, k, ws, 0, t, ch, base, more);
  }

  /** At the end of a frame other than the last, the decoder reads the next delta and
      emits the clock periods it stands for. */
  lemma NextFrame(signals: seq<Signal>, maxFrames: nat, k: nat, ws: seq<Word>, t: nat,
                  ch: Channel, base: seq<Record>, delta: Word, more: seq<Word>)
    requires ValidTable(signals) && k + 1 < maxFrames
    requires |ws| == WordsPerFrame(CalcFrameWidth(signals, 0))
    requires CalcFrameWidth(signals, 0) <= 64 * |ws|
    requires ch.responses == [delta] + more
    ensures AfterWord(signals, maxFrames, k, ws, t, ch, base) ==
      FrameFrom(signals, maxFrames, k + 1, [], t + 2 * Periods(delta), Channel(more, ch.writesLeft, ch.log),
                base + FrameRecords(signals, ws) + Clock(Periods(delta), t))
  {
    assert ch.Read() == Some((delta, Channel(more, ch.writesLeft, ch.log)));
  }

  /** At the end of the last frame the decoder stops with its records emitted. */
  lemma LastFrame(signals: seq<Signal>, maxFrames: nat, k: nat, ws: seq<Word>, t: nat,
                  ch: Channel, base: seq<Record>)
    requires ValidTable(signals) && k + 1 == maxFrames
    requires |ws| == WordsPerFrame(CalcFrameWidth(signals, 0))
    requires CalcFrameWidth(signals, 0) <= 64 * |ws|
    ensures AfterWord(signals, maxFrames, k, ws, t, ch, base) ==
      Dump(OK, ch, base + FrameRecords(signals, ws), t)
  {
  }

  /** Decoding a frame other than the last: its values and the clock up to the next frame
      are emitted, and nothing is written. */
  lemma MiddleFrame(signals: seq<Signal>, rec: Recording, bodies: seq<seq<Word>>, k: nat,
                    t: nat, ch: Channel, base: seq<Record>, rest: seq<Word>)
    requires ValidTable(signals) && CalcFrameWidth(signals, 0) > 0
    requires Bodies(signals, rec, bodies) && k + 1 < |rec.frames|
    requires ch.responses == FramesThen(rec, bodies, k, rest)
    requires 2 * WordsPerFrame(CalcFrameWidth(signals, 0)) <= ch.writesLeft
    ensures FrameFrom(signals, |rec.frames|, k, [], t, ch, base) ==
      FrameFrom(signals, |rec.frames|, k + 1, [], t + 2 * Periods(rec.frames[k + 1].delta),
                Channel(FramesThen(rec, bodies, k + 1, rest), ch.writesLeft, ch.log),
                base + FrameValues(rec.frames[k]) + Clock(Periods(rec.frames[k + 1].delta), t))
  {
    var m := |rec.frames|;
    var ws := bodies[k];
    var next := FramesThen(rec, bodies, k + 1, rest);
    var delta := rec.frames[k + 1].delta;
    WholeFrame(signals, m, k, ws, t, ch, base, [delta] + next);
    assert BodyLog(|ws|, false) == [] && ch.log + [] == ch.log;
    NextFrame(signals, m, k, ws, t, Channel([delta] + next, ch.writesLeft, ch.log), base, delta, next);
  }

  /** Decoding the last frame: its values are emitted and every body word was preceded by
      the GET_VALID and GET_DATA commands. */
  lemma FinalFrame(signals: seq<Signal>, rec: Recording, bodies: seq<seq<Word>>, k: nat,
                   t: nat, ch: Channel, base: seq<Record>, rest: seq<Word>)
    requires ValidTable(signals) && CalcFrameWidth(signals, 0) > 0
    requires Bodies(signals, rec, bodies) && k + 1 == |rec.frames|
    requires ch.responses == FramesThen(rec, bodies, k, rest)
    requires 2 * WordsPerFrame(CalcFrameWidth(signals, 0)) <= ch.writesLeft
    ensures FrameFrom(signals, |rec.frames|, k, [], t, ch, base) ==
      Dump(OK,
           Channel(rest, ch.writesLeft - 2 * WordsPerFrame(CalcFrameWidth(signals, 0)),
                   ch.log + BodyLog(WordsPerFrame(CalcFrameWidth(signals, 0)), true)),
           base + FrameValues(rec.frames[k]), t)
  {
    var ws := bodies[k];
    WholeFrame(signals, |rec.frames|, k, ws, t, ch, base, rest);
    LastFrame(signals, |rec.frames|, k, ws, t,
              Channel(rest, ch.writesLeft - |BodyLog(|ws|, true)|, ch.log + BodyLog(|ws|, true)), base);
  }

  /** Decoding frames k.. of a recording emits exactly the recorded values on the clock the
      deltas describe, consumes exactly their responses, and writes only the GET_VALID and
      GET_DATA commands before each word of the last frame. */
  lemma {:induction false} FramesFrom(signals: seq<Signal>, rec: Recording, bodies: seq<seq<Word>>, k: nat,
                                      t: nat, ch: Channel, base: seq<Record>, rest: seq<Word>)
    requires ValidTable(signals) && CalcFrameWidth(signals, 0) > 0
    requires Bodies(signals, rec, bodies) && k < |rec.frames|
    requires ch.responses == FramesThen(rec, bodies, k, rest)
    requires 2 * WordsPerFrame(CalcFrameWidth(signals, 0)) <= ch.writesLeft
    ensures FrameFrom(signals, |rec.frames|, k, [], t, ch, base) ==
      Dump(OK,
           Channel(rest, ch.writesLeft - 2 * WordsPerFrame(CalcFrameWidth(signals, 0)),
                   ch.log + BodyLog(WordsPerFrame(CalcFrameWidth(signals, 0)), true)),
           RenderFrom(rec, k, t, base),
           t + 2 * SumPeriods(rec.frames[k + 1..]))
    decreases |rec.frames| - k
  {
    if k + 1 == |rec.frames| {
      FinalFrame(signals, rec, bodies, k, t, ch, base, rest);
      assert rec.frames[k + 1..] == [];
    } else {
      MiddleFrame(signals, rec, bodies, k, t, ch, base, rest);
      FramesFrom(signals, rec, bodies, k + 1, t + 2 * Periods(rec.frames[k + 1].delta),
                 Channel(FramesThen(rec, bodies, k + 1, rest), ch.writesLeft, ch.log),
                 base + FrameValues(rec.frames[k]) + Clock(Periods(rec.frames[k + 1].delta), t), rest);
      SumPeriodsStep(rec.frames, k + 1);
      RenderFromStep(rec, k, t, base);
    }
  }
}

/** The whole of vx_scope_stop against the reference recorder. */
module StopRoundTrip {
  import opened Commands
  import opened Registers
  import opened Signals
  import opened Vcd
  import opened Frames
  import opened Scope
  import opened RoundTrip

  /** `zeros` GET_VALID answers of 0 (still recording), then `rest`. */
  function PollThen(zeros: nat, rest: seq<Word>): seq<Word>
  {
    if zeros == 0 then rest else [0] + PollThen(zeros - 1, rest)
  }

  /** Every answer the device gives during vx_scope_stop for a recording: the poll, the
      frame width, the frame count, the start offset, the first delta, the frames and the
      final GET_VALID answer 0. */
  function Responses(rec: Recording, bodies: seq<seq<Word>>, zeros: nat): seq<Word>
    requires |bodies| == |rec.frames| >= 1
  {
    PollThen(zeros, [1] + ([rec.width] + ([rec.count] + ([rec.offset] +
      ([rec.frames[0].delta] + FramesThen(rec, bodies, 0, [0]))))))
  }

  /** The poll skips the zero answers and stops at the first nonzero one. */
  lemma {:induction false} PollSkipsZeros(zeros: nat, v: Word, rest: seq<Word>, ch: Channel)
    requires v != 0 && ch.responses == PollThen(zeros, [v] + rest)
    ensures Poll(ch) == (true, Channel(rest, ch.writesLeft, ch.log))
    decreases zeros
  {
    if zeros == 0 {
      assert ch.Read() == Some((v, Channel(rest, ch.writesLeft, ch.log)));
    } else {
      var c := Channel(PollThen(zeros - 1, [v] + rest), ch.writesLeft, ch.log);
      assert ch.Read() == Some((0, c));
      PollSkipsZeros(zeros - 1, v, rest, c);
    }
  }

  /** One answered query. */
  lemma QueryAnswered(ch: Channel, op: Opcode, v: Word, rest: seq<Word>)
    requires ch.writesLeft > 0 && ch.responses == [v] + rest
    ensures Query(ch, op) == Reply(v, Channel(rest, ch.writesLeft - 1, ch.log + [Code(op)]))
  {
    assert ch.Write(Code(op)) == Some(Channel(ch.responses, ch.writesLeft - 1, ch.log + [Code(op)]));
  }

  /** GET_DATA answers the first delta; the clock runs up to the first frame. */
  lemma DataQueried(signals: seq<Signal>, maxFrames: nat, offset: Word, delta: Word, more: seq<Word>,
                    ch: Channel, hdr: seq<Record>)
    requires ValidTable(signals)
    requires ch.writesLeft > 0 && ch.responses == [delta] + more
    ensures FromData(signals, maxFrames, offset, ch, hdr) ==
      FinalCheck(FirstFrame(signals, maxFrames, 2 * LeadPeriods(offset, delta),
                            Channel(more, ch.writesLeft - 1, ch.log + [Code(GetData)]),
                            hdr + Clock(LeadPeriods(offset, delta), 0)))
  {
    QueryAnswered(ch, GetData, delta, more);
  }

  /** A GET_VALID answer of 0 after the frames leaves the dump successful. */
  lemma FinalCheckZero(d: Dump)
    requires d.status == OK && d.chan.writesLeft > 0 && d.chan.responses == [0]
    ensures FinalCheck(d) == Dump(OK, Channel([], d.chan.writesLeft - 1, d.chan.log + [Code(GetValid)]), d.vcd, d.timestamp)
  {
    QueryAnswered(d.chan, GetValid, 0, []);
  }

  /** The frames decode to the recording, and the final GET_VALID reads 0. */
  lemma FramesThenIdle(signals: seq<Signal>, rec: Recording, bodies: seq<seq<Word>>, t: nat, ch: Channel, base: seq<Record>)
    requires ValidTable(signals) && CalcFrameWidth(signals, 0) > 0
    requires |rec.frames| >= 1 && Bodies(signals, rec, bodies)
    requires ch.responses == FramesThen(rec, bodies, 0, [0])
    requires 2 * WordsPerFrame(CalcFrameWidth(signals, 0)) + 1 <= ch.writesLeft
    ensures FinalCheck(FirstFrame(signals, |rec.frames|, t, ch, base)) ==
      Dump(OK,
           Channel([], ch.writesLeft - 2 * WordsPerFrame(CalcFrameWidth(signals, 0)) - 1,
                   ch.log + BodyLog(WordsPerFrame(CalcFrameWidth(signals, 0)), true) + [Code(GetValid)]),
           RenderFrom(rec, 0, t, base), t + 2 * SumPeriods(rec.frames[1..]))
  {
    FramesFrom(signals, rec, bodies, 0, t, ch, base, [0]);
    FinalCheckZero(FirstFrame(signals, |rec.frames|, t, ch, base));
  }

  /** From GET_DATA on: the first delta, the clock up to the first frame, the frames and
      the final GET_VALID. */
  lemma DataRoundTrip(signals: seq<Signal>, rec: Recording, bodies: seq<seq<Word>>, ch: Channel, hdr: seq<Record>)
    requires ValidTable(signals) && CalcFrameWidth(signals, 0) > 0
    requires |rec.frames| >= 1 && Bodies(signals, rec, bodies)
    requires ch.responses == [rec.frames[0].delta] + FramesThen(rec, bodies, 0, [0])
    requires 2 * WordsPerFrame(CalcFrameWidth(signals, 0)) + 2 <= ch.writesLeft
    ensures FromData(signals, |rec.frames|, rec.offset, ch, hdr) ==
      Dump(OK,
           Channel([], ch.writesLeft - 2 * WordsPerFrame(CalcFrameWidth(signals, 0)) - 2,
                   ch.log + [Code(GetData)] + BodyLog(WordsPerFrame(CalcFrameWidth(signals, 0)), true) + [Code(GetValid)]),
           RenderFrom(rec, 0, 2 * LeadPeriods(rec.offset, rec.frames[0].delta),
                      hdr + Clock(LeadPeriods(rec.offset, rec.frames[0].delta), 0)),
           2 * LeadPeriods(rec.offset, rec.frames[0].delta) + 2 * SumPeriods(rec.frames[1..]))
  {
    DataQueried(signals, |rec.frames|, rec.offset, rec.frames[0].delta, FramesThen(rec, bodies, 0, [0]), ch, hdr);
    FramesThenIdle(signals, rec, bodies, 2 * LeadPeriods(rec.offset, rec.frames[0].delta),
                   Channel(FramesThen(rec, bodies, 0, [0]), ch.writesLeft - 1, ch.log + [Code(GetData)]),
                   hdr + Clock(LeadPeriods(rec.offset, rec.frames[0].delta), 0));
  }

  /** The width, count and offset exchanges: with the width the signal table expects, the
      decoding goes on from GET_DATA with the reported count and offset. */
  lemma MetadataRead(signals: seq<Signal>, width: Word, count: Word, offset: Word, more: seq<Word>,
                     ch: Channel, hdr: seq<Record>)
    requires ValidTable(signals) && width as nat == CalcFrameWidth(signals, 0)
    requires 3 <= ch.writesLeft && ch.responses == [width] + ([count] + ([offset] + more))
    ensures AfterReady(signals, ch, hdr) ==
      FromData(signals, count as nat, offset,
               Channel(more, ch.writesLeft - 3, ch.log + [Code(GetWidth)] + [Code(GetCount)] + [Code(GetOffset)]), hdr)
  {
    var c1 := Channel([count] + ([offset] + more), ch.writesLeft - 1, ch.log + [Code(GetWidth)]);
    var c2 := Channel([offset] + more, ch.writesLeft - 2, ch.log + [Code(GetWidth)] + [Code(GetCount)]);
    QueryAnswered(ch, GetWidth, width, [count] + ([offset] + more));
    QueryAnswered(c1, GetCount, count, [offset] + more);
    QueryAnswered(c2, GetOffset, offset, more);
  }

  /** After the poll: the width and count match the signal table, so the frames decode. */
  lemma ReadyRoundTrip(signals: seq<Signal>, rec: Recording, bodies: seq<seq<Word>>, ch: Channel, hdr: seq<Record>)
    requires WellFormed(signals, rec) && CalcFrameWidth(signals, 0) > 0 && Bodies(signals, rec, bodies)
    requires ch.responses == [rec.width] + ([rec.count] + ([rec.offset] +
      ([rec.frames[0].delta] + FramesThen(rec, bodies, 0, [0]))))
    requires 2 * WordsPerFrame(CalcFrameWidth(signals, 0)) + 5 <= ch.writesLeft
    ensures AfterReady(signals, ch, hdr) ==
      Dump(OK,
           Channel([], ch.writesLeft - 2 * WordsPerFrame(CalcFrameWidth(signals, 0)) - 5,
                   ch.log + [Code(GetWidth)] + [Code(GetCount)] + [Code(GetOffset)] + [Code(GetData)] +
                   BodyLog(WordsPerFrame(CalcFrameWidth(signals, 0)), true) + [Code(GetValid)]),
           RenderFrom(rec, 0, 2 * LeadPeriods(rec.offset, rec.frames[0].delta),
                      hdr + Clock(LeadPeriods(rec.offset, rec.frames[0].delta), 0)),
           2 * LeadPeriods(rec.offset, rec.frames[0].delta) + 2 * SumPeriods(rec.frames[1..]))
  {
    MetadataRead(signals, rec.width, rec.count, rec.offset,
                 [rec.frames[0].delta] + FramesThen(rec, bodies, 0, [0]), ch, hdr);
    DataRoundTrip(signals, rec, bodies,
                  Channel([rec.frames[0].delta] + FramesThen(rec, bodies, 0, [0]), ch.writesLeft - 3,
                          ch.log + [Code(GetWidth)] + [Code(GetCount)] + [Code(GetOffset)]), hdr);
  }

  /** The drain: GET_VALID is polled until the recorder is ready, then the metadata and
      the frames are read back. */
  lemma DrainRoundTrip(signals: seq<Signal>, rec: Recording, bodies: seq<seq<Word>>, zeros: nat, ch: Channel, hdr: seq<Record>)
    requires WellFormed(signals, rec) && CalcFrameWidth(signals, 0) > 0 && Bodies(signals, rec, bodies)
    requires ch.responses == Responses(rec, bodies, zeros)
    requires 2 * WordsPerFrame(CalcFrameWidth(signals, 0)) + 6 <= ch.writesLeft
    ensures Drain(signals, ch, hdr) ==
      Dump(OK,
           Channel([], ch.writesLeft - 2 * WordsPerFrame(CalcFrameWidth(signals, 0)) - 6,
                   ch.log + [Code(GetValid)] + [Code(GetWidth)] + [Code(GetCount)] + [Code(GetOffset)] + [Code(GetData)] +
                   BodyLog(WordsPerFrame(CalcFrameWidth(signals, 0)), true) + [Code(GetValid)]),
           RenderFrom(rec, 0, 2 * LeadPeriods(rec.offset, rec.frames[0].delta),
                      hdr + Clock(LeadPeriods(rec.offset, rec.frames[0].delta), 0)),
           2 * LeadPeriods(rec.offset, rec.frames[0].delta) + 2 * SumPeriods(rec.frames[1..]))
  {
    var c1 := Channel(ch.responses, ch.writesLeft - 1, ch.log + [Code(GetValid)]);
    assert ch.Write(Code(GetValid)) == Some(c1);
    PollSkipsZeros(zeros, 1, [rec.width] + ([rec.count] + ([rec.offset] +
      ([rec.frames[0].delta] + FramesThen(rec, bodies, 0, [0])))), c1);
    ReadyRoundTrip(signals, rec, bodies,
                   Channel([rec.width] + ([rec.count] + ([rec.offset] +
                     ([rec.frames[0].delta] + FramesThen(rec, bodies, 0, [0])))), c1.writesLeft, c1.log), hdr);
  }

  /** With a stop delay, SET_STOP goes out first, then the header, then the drain. */
  lemma StopArmedRecording(signals: seq<Signal>, rec: Recording, bodies: seq<seq<Word>>, delay: Word, zeros: nat, ch: Channel)
    requires WellFormed(signals, rec) && CalcFrameWidth(signals, 0) > 0 && Bodies(signals, rec, bodies)
    requires delay != NO_DELAY && ch.responses == Responses(rec, bodies, zeros)
    requires 2 * WordsPerFrame(CalcFrameWidth(signals, 0)) + 7 <= ch.writesLeft
    ensures StopSpec(signals, true, delay, ch) ==
      Dump(OK,
           Channel([], ch.writesLeft - 1 - 2 * WordsPerFrame(CalcFrameWidth(signals, 0)) - 6,
                   ch.log + [Command(SetStop, delay)] + [Code(GetValid)] + [Code(GetWidth)] + [Code(GetCount)] + [Code(GetOffset)] +
                   [Code(GetData)] + BodyLog(WordsPerFrame(CalcFrameWidth(signals, 0)), true) + [Code(GetValid)]),
           RenderFrom(rec, 0, 2 * LeadPeriods(rec.offset, rec.frames[0].delta),
                      Header(signals) + Clock(LeadPeriods(rec.offset, rec.frames[0].delta), 0)),
           2 * LeadPeriods(rec.offset, rec.frames[0].delta) + 2 * SumPeriods(rec.frames[1..]))
  {
    assert ch.Write(Command(SetStop, delay)) == Some(Channel(ch.responses, ch.writesLeft - 1, ch.log + [Command(SetStop, delay)]));
    DrainRoundTrip(signals, rec, bodies, zeros,
                   Channel(ch.responses, ch.writesLeft - 1, ch.log + [Command(SetStop, delay)]), Header(signals));
  }

  /** With NO_DELAY the header comes first and the drain follows at once. */
  lemma StopAtOnceRecording(signals: seq<Signal>, rec: Recording, bodies: seq<seq<Word>>, zeros: nat, ch: Channel)
    requires WellFormed(signals, rec) && CalcFrameWidth(signals, 0) > 0 && Bodies(signals, rec, bodies)
    requires ch.responses == Responses(rec, bodies, zeros)
    requires 2 * WordsPerFrame(CalcFrameWidth(signals, 0)) + 6 <= ch.writesLeft
    ensures StopSpec(signals, true, NO_DELAY, ch) ==
      Dump(OK,
           Channel([], ch.writesLeft - 2 * WordsPerFrame(CalcFrameWidth(signals, 0)) - 6,
                   ch.log + [Code(GetValid)] + [Code(GetWidth)] + [Code(GetCount)] + [Code(GetOffset)] +
                   [Code(GetData)] + BodyLog(WordsPerFrame(CalcFrameWidth(signals, 0)), true) + [Code(GetValid)]),
           RenderFrom(rec, 0, 2 * LeadPeriods(rec.offset, rec.frames[0].delta),
                      Header(signals) + Clock(LeadPeriods(rec.offset, rec.frames[0].delta), 0)),
           2 * LeadPeriods(rec.offset, rec.frames[0].delta) + 2 * SumPeriods(rec.frames[1..]))
  {
    DrainRoundTrip(signals, rec, bodies, zeros, ch, Header(signals));
  }

  /** The reference recorder's own bodies: for every well-formed recording, vx_scope_stop
      renders exactly the recorded values. */
  lemma StopDecodesEncodedRecording(signals: seq<Signal>, rec: Recording, delay: Word, zeros: nat, ch: Channel)
    requires WellFormed(signals, rec) && CalcFrameWidth(signals, 0) > 0
    requires ch.responses == Responses(rec, EncodeFrames(rec), zeros)
    requires 2 * WordsPerFrame(CalcFrameWidth(signals, 0)) + 7 <= ch.writesLeft
    ensures StopSpec(signals, true, delay, ch).status == OK
    ensures StopSpec(signals, true, delay, ch).chan.responses == []
    ensures StopSpec(signals, true, delay, ch).chan.writesLeft ==
      ch.writesLeft - 2 * WordsPerFrame(CalcFrameWidth(signals, 0)) - (if delay == NO_DELAY then 6 else 7)
    ensures StopSpec(signals, true, delay, ch).vcd ==
      RenderFrom(rec, 0, 2 * LeadPeriods(rec.offset, rec.frames[0].delta),
                 Header(signals) + Clock(LeadPeriods(rec.offset, rec.frames[0].delta), 0))
    ensures StopSpec(signals, true, delay, ch).timestamp ==
      2 * LeadPeriods(rec.offset, rec.frames[0].delta) + 2 * SumPeriods(rec.frames[1..])
  {
    EncodeFramesBodies(signals, rec);
    if delay == NO_DELAY {
      StopAtOnceRecording(signals, rec, EncodeFrames(rec), zeros, ch);
    } else {
      StopArmedRecording(signals, rec, EncodeFrames(rec), delay, zeros, ch);
    }
  }

  /** The timestamps of a dump whose clock runs `lead` periods before the first frame. */
  lemma DumpTicks(signals: seq<Signal>, rec: Recording, lead: nat, d: Dump)
    requires |rec.frames| >= 1
    requires d.vcd == RenderFrom(rec, 0, 2 * lead, Header(signals) + Clock(lead, 0))
    requires d.timestamp == 2 * lead + 2 * SumPeriods(rec.frames[1..])
    ensures Times(d.vcd) == Ticks(0, d.timestamp)
  {
    RenderFromTimes(rec, 0, 2 * lead, Header(signals) + Clock(lead, 0));
    assert Times(Header(signals) + Clock(lead, 0)) == [] + Ticks(0, 2 * lead) by {
      TimesAppend(Header(signals), Clock(lead, 0));
      HeaderHasNoTimes(signals);
      ClockTicks(lead, 0);
    }
    ConcatTicks([], 0, 2 * lead, 2 * SumPeriods(rec.frames[1..]));
  }

  /** The timestamps of the whole dump are 0, 1, ..., T-1, where T is the timestamp
      vx_scope_stop ends with: the clock never goes back, never repeats and never skips. */
  lemma StopDumpTimes(signals: seq<Signal>, rec: Recording, delay: Word, zeros: nat, ch: Channel)
    requires WellFormed(signals, rec) && CalcFrameWidth(signals, 0) > 0
    requires ch.responses == Responses(rec, EncodeFrames(rec), zeros)
    requires 2 * WordsPerFrame(CalcFrameWidth(signals, 0)) + 7 <= ch.writesLeft
    ensures Times(StopSpec(signals, true, delay, ch).vcd) == Ticks(0, StopSpec(signals, true, delay, ch).timestamp)
  {
    StopDecodesEncodedRecording(signals, rec, delay, zeros, ch);
    DumpTicks(signals, rec, LeadPeriods(rec.offset, rec.frames[0].delta), StopSpec(signals, true, delay, ch));
  }

  // ----- the aborts ------------------------------------------------------------------

  /** A frame width other than the signal table's aborts right after GET_WIDTH: only the
      header is written and nothing else is queried. */
  lemma WidthMismatchAborts(signals: seq<Signal>, width: Word, rest: seq<Word>, ch: Channel, hdr: seq<Record>)
    requires ValidTable(signals) && width as nat != CalcFrameWidth(signals, 0)
    requires ch.writesLeft > 0 && ch.responses == [width] + rest
    ensures AfterReady(signals, ch, hdr) ==
      Dump(Aborted(WidthMismatch), Channel(rest, ch.writesLeft - 1, ch.log + [Code(GetWidth)]), hdr, 0)
  {
    QueryAnswered(ch, GetWidth, width, rest);
  }

  /** In the last frame, a valid flag other than 1 before a body word aborts; the records
      of the signals already complete in that frame have been written. */
  lemma LastFrameNotValidAborts(signals: seq<Signal>, maxFrames: nat, k: nat, ws: seq<Word>, t: nat,
                                valid: Word, rest: seq<Word>, ch: Channel, base: seq<Record>)
    requires ValidTable(signals) && k + 1 == maxFrames && valid != 1
    requires ch.writesLeft > 0 && ch.responses == [valid] + rest
    ensures FrameFrom(signals, maxFrames, k, ws, t, ch, base) ==
      Dump(Aborted(LastFrameNotValid), Channel(rest, ch.writesLeft - 1, ch.log + [Code(GetValid)]),
           base + Partial(signals, ws), t)
  {
    QueryAnswered(ch, GetValid, valid, rest);
  }

  /** A nonzero GET_VALID after the last frame aborts, keeping the whole dump. */
  lemma StillValidAborts(d: Dump, valid: Word, rest: seq<Word>)
    requires d.status == OK && valid != 0
    requires d.chan.writesLeft > 0 && d.chan.responses == [valid] + rest
    ensures FinalCheck(d) ==
      Dump(Aborted(StillValid), Channel(rest, d.chan.writesLeft - 1, d.chan.log + [Code(GetValid)]), d.vcd, d.timestamp)
  {
    QueryAnswered(d.chan, GetValid, valid, rest);
  }
}
