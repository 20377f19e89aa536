/** The statically declared signal table (scope_signals) and the frame layout it
    implies: calcFrameWidth, and where each signal sits inside a frame. */
module Signals {

  /** One recorded signal: its name and its width in bits. */
  datatype Signal = Signal(name: string, width: nat)

  /** What the driver assumes of its table: at least one signal, each at least one bit wide. */
  predicate ValidTable(signals: seq<Signal>)
  {
    |signals| >= 1 && forall i :: 0 <= i < |signals| ==> signals[i].width > 0
  }

  /** calcFrameWidth(index): the widths of signals[index..], summed from `index` onwards.
      Signals are laid out in a frame from the last declared one down, so this is also the
      bit offset inside a frame at which signal id `index` (1-based) starts, and the offset
      at which signal id `index + 1` ends. */
  function CalcFrameWidth(signals: seq<Signal>, index: nat): (w: nat)
    ensures index < |signals| ==> signals[index].width <= w
    decreases |signals| - index
  {
    if index < |signals| then signals[index].width + CalcFrameWidth(signals, index + 1) else 0
  }

  /** Sum of all widths, accumulated from the first declared signal onwards: an independent
      reference definition of the frame width. */
  function SumWidths(signals: seq<Signal>): nat
  {
    if signals == [] then 0 else SumWidths(signals[..|signals| - 1]) + signals[|signals| - 1].width
  }

  /** Summing from the front and from the back agree. */
  lemma {:induction false} SumWidthsFront(signals: seq<Signal>)
    requires signals != []
    ensures SumWidths(signals) == signals[0].width + SumWidths(signals[1..])
  {
    if |signals| > 1 {
      var init := signals[..|signals| - 1];
      SumWidthsFront(init);
      assert init[1..] == signals[1..][..|signals[1..]| - 1];
      assert init[0] == signals[0];
    } else {
      assert signals[..0] == [] && signals[1..] == [];
    }
  }

  /** calcFrameWidth(index) is the sum of the widths of signals[index..]; in particular
      the frame width fwidth = calcFrameWidth(0) is the sum of all signal widths. */
  lemma {:induction false} CalcFrameWidthIsSum(signals: seq<Signal>, index: nat)
    requires index <= |signals|
    ensures CalcFrameWidth(signals, index) == SumWidths(signals[index..])
    decreases |signals| - index
  {
    if index < |signals| {
      CalcFrameWidthIsSum(signals, index + 1);
      SumWidthsFront(signals[index..]);
      assert signals[index..][1..] == signals[index + 1..];
    } else {
      assert signals[index..] == [];
    }
  }

  /** Offsets fall strictly as the index rises: with every width positive, a signal
      declared later starts strictly before one declared earlier. */
  lemma {:induction false} CalcFrameWidthDecreasing(signals: seq<Signal>, i: nat, j: nat)
    requires ValidTable(signals)
    requires i < j <= |signals|
    ensures CalcFrameWidth(signals, j) < CalcFrameWidth(signals, i)
    decreases j - i
  {
    if i + 1 < j {
      CalcFrameWidthDecreasing(signals, i + 1, j);
    }
  }

  /** The signal being filled when `n` bits of the frame have been consumed, scanning
      signal ids from `id` down: the first whose end lies beyond `n`, or 0 when every
      signal is complete. */
  function SignalAt(signals: seq<Signal>, id: nat, n: nat): (r: nat)
    requires id <= |signals|
    requires CalcFrameWidth(signals, id) <= n
    ensures r <= id
    ensures CalcFrameWidth(signals, r) <= n
    ensures r == 0 || n < CalcFrameWidth(signals, r - 1)
  {
    if id == 0 || n < CalcFrameWidth(signals, id - 1) then id else SignalAt(signals, id - 1, n)
  }

  /** Bit `n` lies in exactly one signal: any id whose range [start, end) holds `n` is the
      one SignalAt finds. */
  lemma SignalAtUnique(signals: seq<Signal>, n: nat, sid: nat)
    requires ValidTable(signals)
    requires 1 <= sid <= |signals|
    requires CalcFrameWidth(signals, sid) <= n < CalcFrameWidth(signals, sid - 1)
    ensures SignalAt(signals, |signals|, n) == sid
  {
    var r := SignalAt(signals, |signals|, n);
    if r < sid {
      if r < sid - 1 { CalcFrameWidthDecreasing(signals, r, sid - 1); }
    } else if r > sid {
      if sid < r - 1 { CalcFrameWidthDecreasing(signals, sid, r - 1); }
    }
  }

  /** When the whole frame has been consumed no signal is pending. */
  lemma SignalAtEnd(signals: seq<Signal>, n: nat)
    requires ValidTable(signals)
    requires CalcFrameWidth(signals, 0) <= n
    ensures SignalAt(signals, |signals|, n) == 0
  {
    var r := SignalAt(signals, |signals|, n);
    if r > 0 && r - 1 > 0 {
      CalcFrameWidthDecreasing(signals, 0, r - 1);
    }
  }
}
