/** The VCD file vx_scope_stop writes, as a sequence of records: the header block, the
    synthesised clock (signal id 0) and the signal value changes. */
module Vcd {
  import opened Signals

  datatype Record =
    | Version(text: string)                   // $version ... $end
    | Timescale(text: string)                 // $timescale ... $end
    | Scope(name: string)                     // $scope module ... $end
    | Var(width: nat, id: nat, name: string)  // $var reg <width> <id> <name> $end
    | Upscope                                 // $upscope $end
    | EndDefinitions                          // enddefinitions $end
    | Time(t: nat)                            // #<t>
    | Val(bits: string, id: nat)              // b<bits> <id>

  /** The clock is signal id 0, one bit wide. */
  const CLOCK_LOW: Record := Val("0", 0)
  const CLOCK_HIGH: Record := Val("1", 0)

  /** One $var declaration per signal, with 1-based ids in declaration order. */
  function Declarations(signals: seq<Signal>): (ds: seq<Record>)
    ensures |ds| == |signals|
  {
    seq(|signals|, i requires 0 <= i < |signals| => Var(signals[i].width, i + 1, signals[i].name))
  }

  /** The header block: version, timescale, module scope, the clock and every signal. */
  function Header(signals: seq<Signal>): seq<Record>
  {
    [Version("Generated by Vortex Scope"), Timescale("1 ns"), Scope("TOP"), Var(1, 0, "clk")]
    + Declarations(signals)
    + [Upscope, EndDefinitions]
  }

  /** Writes the header, declaring the signals one by one. */
  method WriteHeader(signals: seq<Signal>) returns (vcd: seq<Record>)
    ensures vcd == Header(signals)
    ensures |vcd| == |signals| + 6
    ensures forall i :: 0 <= i < |signals| ==> vcd[4 + i] == Var(signals[i].width, i + 1, signals[i].name)
  {
    vcd := [Version("Generated by Vortex Scope"), Timescale("1 ns"), Scope("TOP"), Var(1, 0, "clk")];
    for i := 0 to |signals|
      invariant vcd == Header(signals)[..4] + Declarations(signals)[..i]
    {
      vcd := vcd + [Var(signals[i].width, i + 1, signals[i].name)];
    }
    assert Declarations(signals)[..|signals|] == Declarations(signals);
    vcd := vcd + [Upscope, EndDefinitions];
  }

  /** The records print_clock writes for `n` clock periods starting at timestamp `t`:
      per period, a low level at one timestamp and a high level at the next. */
  function Clock(n: nat, t: nat): seq<Record>
  {
    if n == 0 then [] else Clock(n - 1, t) + [Time(t + 2 * (n - 1)), CLOCK_LOW, Time(t + 2 * (n - 1) + 1), CLOCK_HIGH]
  }

  /** print_clock: emits `delta` low/high pairs at consecutive timestamps from `timestamp`
      and returns the advanced timestamp. */
  method PrintClock(vcd: seq<Record>, delta: nat, timestamp: nat) returns (out: seq<Record>, t: nat)
    ensures out == vcd + Clock(delta, timestamp)
    ensures t == timestamp + 2 * delta
  {
    out, t := vcd, timestamp;
    var left: nat := delta;
    while left != 0
      invariant left <= delta
      invariant t == timestamp + 2 * (delta - left)
      invariant out == vcd + Clock(delta - left, timestamp)
    {
      out := out + [Time(t), CLOCK_LOW];
      t := t + 1;
      out := out + [Time(t), CLOCK_HIGH];
      t := t + 1;
      left := left - 1;
    }
  }

  /** The timestamps of a record sequence, in order. */
  function Times(rs: seq<Record>): seq<nat>
  {
    if rs == [] then []
    else Times(rs[..|rs| - 1]) + (if rs[|rs| - 1].Time? then [rs[|rs| - 1].t] else [])
  }

  lemma TimesSingle(r: Record)
    ensures Times([r]) == if r.Time? then [r.t] else []
  {
    assert [r][..0] == [];
  }

  lemma {:induction false} TimesAppend(a: seq<Record>, b: seq<Record>)
    ensures Times(a + b) == Times(a) + Times(b)
    decreases |b|
  {
    if b != [] {
      assert (a + b)[..|a + b| - 1] == a + b[..|b| - 1];
      TimesAppend(a, b[..|b| - 1]);
    } else {
      assert a + b == a;
    }
  }

  /** The clock's levels alternate low, high, low, ..., each after its own timestamp. */
  lemma {:induction false} ClockShape(n: nat, t: nat)
    ensures |Clock(n, t)| == 4 * n
    ensures forall i :: 0 <= i < n ==>
      Clock(n, t)[4 * i] == Time(t + 2 * i) && Clock(n, t)[4 * i + 1] == CLOCK_LOW &&
      Clock(n, t)[4 * i + 2] == Time(t + 2 * i + 1) && Clock(n, t)[4 * i + 3] == CLOCK_HIGH
  {
    if n > 0 {
      ClockShape(n - 1, t);
    }
  }

  /** One clock period: its two timestamps, in order. */
  lemma TimesOfPeriod(t: nat)
    ensures Times([Time(t), CLOCK_LOW, Time(t + 1), CLOCK_HIGH]) == [t, t + 1]
  {
    var a, b := Time(t), Time(t + 1);
    TimesSingle(a); TimesSingle(CLOCK_LOW); TimesSingle(b); TimesSingle(CLOCK_HIGH);
    TimesAppend([a], [CLOCK_LOW]);
    assert [a] + [CLOCK_LOW] == [a, CLOCK_LOW];
    TimesAppend([a, CLOCK_LOW], [b]);
    assert [a, CLOCK_LOW] + [b] == [a, CLOCK_LOW, b];
    TimesAppend([a, CLOCK_LOW, b], [CLOCK_HIGH]);
    assert [a, CLOCK_LOW, b] + [CLOCK_HIGH] == [a, CLOCK_LOW, b, CLOCK_HIGH];
  }

  /** The clock's timestamps are t, t+1, ..., t+2n-1: they start at `t` and rise strictly,
      by exactly one each. */
  lemma {:induction false} ClockTimes(n: nat, t: nat)
    ensures |Times(Clock(n, t))| == 2 * n
    ensures forall k :: 0 <= k < 2 * n ==> Times(Clock(n, t))[k] == t + k
  {
    if n > 0 {
      ClockTimes(n - 1, t);
      TimesAppend(Clock(n - 1, t), [Time(t + 2 * (n - 1)), CLOCK_LOW, Time(t + 2 * (n - 1) + 1), CLOCK_HIGH]);
      TimesOfPeriod(t + 2 * (n - 1));
    }
  }

  /** The last timestamp of a nonempty clock run is one less than the timestamp print_clock
      returns, so the records written right after it fall at that time. */
  lemma ClockLastTime(n: nat, t: nat)
    requires n > 0
    ensures |Times(Clock(n, t))| > 0
    ensures Times(Clock(n, t))[|Times(Clock(n, t))| - 1] == (t + 2 * n) - 1
  {
    ClockTimes(n, t);
  }

  /** The timestamps t, t+1, ..., t+n-1. */
  function Ticks(t: nat, n: nat): seq<nat>
  {
    seq(n, i requires 0 <= i < n => t + i)
  }

  lemma TicksAppend(t: nat, a: nat, b: nat)
    ensures Ticks(t, a) + Ticks(t + a, b) == Ticks(t, a + b)
  {
    var s := Ticks(t, a) + Ticks(t + a, b);
    assert forall i :: 0 <= i < a + b ==> s[i] == t + i;
  }

  lemma ConcatTicks(before: seq<nat>, t: nat, a: nat, b: nat)
    ensures (before + Ticks(t, a)) + Ticks(t + a, b) == before + Ticks(t, a + b)
  {
    TicksAppend(t, a, b);
  }

  /** print_clock's records carry the timestamps t, t+1, ..., t+2n-1 and no others. */
  lemma ClockTicks(n: nat, t: nat)
    ensures Times(Clock(n, t)) == Ticks(t, 2 * n)
  {
    ClockTimes(n, t);
  }

  /** Records without a timestamp record contribute no timestamps. */
  lemma {:induction false} NoTimes(rs: seq<Record>)
    requires forall i :: 0 <= i < |rs| ==> !rs[i].Time?
    ensures Times(rs) == []
    decreases |rs|
  {
    if rs != [] {
      NoTimes(rs[..|rs| - 1]);
    }
  }

  /** The header block carries no timestamp. */
  lemma HeaderHasNoTimes(signals: seq<Signal>)
    ensures Times(Header(signals)) == []
  {
    NoTimes(Header(signals));
  }
}
