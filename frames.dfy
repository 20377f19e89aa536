/** What one frame of the trace stream decodes to: the bit range of every signal inside
    the frame body and the value-change records the frame produces. */
module Frames {
  import opened Commands
  import opened Signals
  import opened Bits
  import opened Vcd

  /** Body words per frame: every frame body starts at bit 0 of a fresh word, so a frame of
      `fw` bits takes ceil(fw / 64) words and the bits past `fw` in its last word are unused. */
  function WordsPerFrame(fw: nat): nat
  {
    (fw + 63) / 64
  }

  /** A frame of `fw` bits spans its body words: all but the last are full. */
  lemma WordsPerFrameBounds(fw: nat, j: nat)
    requires fw > 0
    ensures WordsPerFrame(fw) >= 1
    ensures 64 * (WordsPerFrame(fw) - 1) < fw <= 64 * WordsPerFrame(fw)
    ensures 64 * j < fw ==> j < WordsPerFrame(fw)
    ensures fw <= 64 * j ==> WordsPerFrame(fw) <= j
  {
  }

  /** The frame bits of signal `id`, in the order they are consumed: bits
      [start, start + width) of the frame body, where `start` is the total width of the
      signals declared after it. */
  function SignalBits(signals: seq<Signal>, ws: seq<Word>, id: nat): seq<bool>
    requires 1 <= id <= |signals|
    requires CalcFrameWidth(signals, id - 1) <= 64 * |ws|
  {
    seq(signals[id - 1].width, k requires 0 <= k < signals[id - 1].width => FrameBit(ws, CalcFrameWidth(signals, id) + k))
  }

  /** The binary string emitted for signal `id`. */
  function SignalString(signals: seq<Signal>, ws: seq<Word>, id: nat): string
    requires 1 <= id <= |signals|
    requires CalcFrameWidth(signals, id - 1) <= 64 * |ws|
  {
    BitsToString(SignalBits(signals, ws, id))
  }

  /** The string of signal `id` has exactly `width` characters, and its character at
      position i is frame bit start + (width-1-i): the k-th bit consumed sits at position
      width-1-k, so the first bit consumed is the rightmost character. */
  lemma SignalStringChars(signals: seq<Signal>, ws: seq<Word>, id: nat)
    requires 1 <= id <= |signals|
    requires CalcFrameWidth(signals, id - 1) <= 64 * |ws|
    ensures |SignalString(signals, ws, id)| == signals[id - 1].width
    ensures forall i :: 0 <= i < signals[id - 1].width ==>
      SignalString(signals, ws, id)[i] == BitChar(FrameBit(ws, CalcFrameWidth(signals, id) + (signals[id - 1].width - 1 - i)))
  {
    var s, w := SignalString(signals, ws, id), signals[id - 1].width;
    var b := SignalBits(signals, ws, id);
    forall i | 0 <= i < w
      ensures s[i] == BitChar(b[w - 1 - i])
    {
      assert s[w - 1 - (w - 1 - i)] == BitChar(b[w - 1 - i]);
    }
  }

  /** Read as a binary number, the string of signal `id` is its bits with the first
      consumed one least significant. */
  lemma SignalStringValue(signals: seq<Signal>, ws: seq<Word>, id: nat)
    requires 1 <= id <= |signals|
    requires CalcFrameWidth(signals, id - 1) <= 64 * |ws|
    ensures BinValue(SignalString(signals, ws, id)) == LsbValue(SignalBits(signals, ws, id))
  {
    BinValueOfBitsToString(SignalBits(signals, ws, id));
  }

  /** The records of signals `hi`, `hi`-1, ..., `lo`+1, in that order. */
  function Span(signals: seq<Signal>, ws: seq<Word>, hi: nat, lo: nat): seq<Record>
    requires lo <= hi <= |signals|
    requires CalcFrameWidth(signals, lo) <= 64 * |ws|
    decreases hi - lo
  {
    if lo == hi then [] else Span(signals, ws, hi, lo + 1) + [Val(SignalString(signals, ws, lo + 1), lo + 1)]
  }

  /** The records one complete frame produces. */
  function FrameRecords(signals: seq<Signal>, ws: seq<Word>): seq<Record>
    requires CalcFrameWidth(signals, 0) <= 64 * |ws|
  {
    Span(signals, ws, |signals|, 0)
  }

  /** The records already produced once the words `ws` of a frame have been consumed:
      those of the signals that lie wholly within them. */
  function Partial(signals: seq<Signal>, ws: seq<Word>): seq<Record>
  {
    Span(signals, ws, |signals|, SignalAt(signals, |signals|, 64 * |ws|))
  }

  /** Span lists ids hi down to lo+1, each exactly once, with its own string. */
  lemma {:induction false} SpanShape(signals: seq<Signal>, ws: seq<Word>, hi: nat, lo: nat)
    requires lo <= hi <= |signals|
    requires CalcFrameWidth(signals, lo) <= 64 * |ws|
    ensures |Span(signals, ws, hi, lo)| == hi - lo
    ensures forall k :: 0 <= k < hi - lo ==>
      CalcFrameWidth(signals, hi - k - 1) <= 64 * |ws| &&
      Span(signals, ws, hi, lo)[k] == Val(SignalString(signals, ws, hi - k), hi - k)
    decreases hi - lo
  {
    if lo < hi {
      SpanShape(signals, ws, hi, lo + 1);
      forall j | lo <= j <= hi
        ensures CalcFrameWidth(signals, j) <= 64 * |ws|
      {
        CalcFrameWidthMonotone(signals, lo, j);
      }
    }
  }

  lemma CalcFrameWidthMonotone(signals: seq<Signal>, i: nat, j: nat)
    requires i <= j <= |signals|
    ensures CalcFrameWidth(signals, j) <= CalcFrameWidth(signals, i)
    decreases j - i
  {
    if i < j { CalcFrameWidthMonotone(signals, i + 1, j); }
  }

  /** Within each frame the signal records come exactly once each, with ids
      N, N-1, ..., 1 in that order. */
  lemma FrameRecordsOrder(signals: seq<Signal>, ws: seq<Word>)
    requires CalcFrameWidth(signals, 0) <= 64 * |ws|
    ensures |FrameRecords(signals, ws)| == |signals|
    ensures forall k :: 0 <= k < |signals| ==>
      FrameRecords(signals, ws)[k].Val? && FrameRecords(signals, ws)[k].id == |signals| - k
  {
    SpanShape(signals, ws, |signals|, 0);
  }

  /** The records of signals already complete do not depend on words read later. */
  lemma {:induction false} SpanExtend(signals: seq<Signal>, ws: seq<Word>, more: seq<Word>, hi: nat, lo: nat)
    requires lo <= hi <= |signals|
    requires CalcFrameWidth(signals, lo) <= 64 * |ws|
    ensures Span(signals, ws + more, hi, lo) == Span(signals, ws, hi, lo)
    decreases hi - lo
  {
    if lo < hi {
      SpanExtend(signals, ws, more, hi, lo + 1);
      assert SignalBits(signals, ws + more, lo + 1) == SignalBits(signals, ws, lo + 1) by {
        forall p: nat | p < CalcFrameWidth(signals, lo)
          ensures FrameBit(ws + more, p) == FrameBit(ws, p)
        {
          FrameBitPrefix(ws, more, p);
        }
      }
    }
  }

  /** The records of signals `hi` down to `lo`+1 depend on the frame bits below the start
      of signal `lo` only. */
  lemma {:induction false} SpanIgnoresPadding(signals: seq<Signal>, ws: seq<Word>, ws': seq<Word>, hi: nat, lo: nat)
    requires lo <= hi <= |signals|
    requires CalcFrameWidth(signals, lo) <= 64 * |ws| && CalcFrameWidth(signals, lo) <= 64 * |ws'|
    requires forall p: nat :: p < CalcFrameWidth(signals, lo) ==> FrameBit(ws, p) == FrameBit(ws', p)
    ensures Span(signals, ws, hi, lo) == Span(signals, ws', hi, lo)
    decreases hi - lo
  {
    if lo < hi {
      SpanIgnoresPadding(signals, ws, ws', hi, lo + 1);
      assert SignalBits(signals, ws, lo + 1) == SignalBits(signals, ws', lo + 1);
    }
  }

  /** A frame's records depend on its first frame_width bits only: the bits past
      frame_width in its last body word are unused. */
  lemma FrameRecordsIgnorePadding(signals: seq<Signal>, ws: seq<Word>, ws': seq<Word>)
    requires |ws| == |ws'| && CalcFrameWidth(signals, 0) <= 64 * |ws|
    requires forall p: nat :: p < CalcFrameWidth(signals, 0) ==> FrameBit(ws, p) == FrameBit(ws', p)
    ensures FrameRecords(signals, ws) == FrameRecords(signals, ws')
  {
    SpanIgnoresPadding(signals, ws, ws', |signals|, 0);
  }

  /** Once the whole frame is read, the partial records are the frame's records. */
  lemma PartialComplete(signals: seq<Signal>, ws: seq<Word>)
    requires ValidTable(signals)
    requires CalcFrameWidth(signals, 0) <= 64 * |ws|
    ensures Partial(signals, ws) == FrameRecords(signals, ws)
  {
    SignalAtEnd(signals, 64 * |ws|);
  }
}
