# Vortex scope trace driver, modelled in Dafny

`driver/opae/vx_scope.cpp` drives the Vortex on-device signal recorder (the "scope").
`vx_scope_start` arms the recorder with a start delay. `vx_scope_stop` arms the stop delay,
waits for the recording to end, reads back the frame width, the frame count, the start
offset and the trace stream, and writes the trace as a VCD waveform file (the Value Change
Dump format of clause 18 of IEEE Std 1364-2005).

The model has these parts:

- `Commands` (commands.dfy): the CMD_* opcodes and the `(payload << 3) | opcode` command
  word, with its decoding.
- `Registers` (channel.dfy): the MMIO command/response register pair as a value. It holds
  the responses the device will give, how many writes still succeed, and the log of command
  words written. A read with no response left, or a write with no writes left, is a failed
  register access.
- `Signals` (signals.dfy): the signal table and `calcFrameWidth`.
- `Bits` (bits.dfy): how stream bits are addressed (least significant bit of each word
  first) and the VCD binary strings built from them.
- `Vcd` (vcd.dfy): the output file as a sequence of records, the header, and `print_clock`.
- `Frames` (frames.dfy): the records one frame of body words produces.
- `Scope` (scope.dfy): `vx_scope_start`, and `vx_scope_stop` as imperative methods.
  - The decoder keeps the driver's loops and its reused `signal_data` buffer, an `array<char>`.
  - Every method is proved equal to a functional specification of the same protocol
    (`StopSpec`, `Drain`, `FromPoll`, `AfterReady`, `AfterWidth`, `AfterCount`, `FromData`,
    `FrameFrom`, `AfterWord`), one query per level.
- `RoundTrip` and `StopRoundTrip` (roundtrip.dfy): a reference recorder. It packs recorded
  signal values into body words and lays out the whole response stream of a recording. The
  main theorem: on that stream, `vx_scope_stop` writes back exactly the recorded values, on
  the clock the deltas describe. It consumes every answer and writes exactly the expected
  commands.
- `Truncation` (truncation.dfy): the failure path. A device that gives fewer answers, or
  completes fewer writes, than the run needs makes `vx_scope_stop` return -1; with enough of
  both, the run is the same as on the full device.

Aborts (`std::abort`, failed `assert`s) are the status `Aborted(fault)`. A failed register
access (`CHECK_RES`) is the status `Returned(-1)`. A successful run is `Returned(0)`.

Bit order follows the code at `driver/opae/vx_scope.cpp:164`. The k-th bit consumed for a
signal is stored at string position `width-1-k`, so the first bit consumed is the *least*
significant (rightmost) character. The model follows the code, and `Bits.BinValueOfBitsToString` states the
consequence.

The header's last line is written at `driver/opae/vx_scope.cpp:98` as `enddefinitions $end`,
without the leading `$` of the `$enddefinitions` keyword of clause 18 of IEEE Std 1364-2005.
The record `Vcd.EndDefinitions` stands for that line as written.

## Model

| member | source | states |
|---|---|---|
| `Commands.OpcodeOf` | driver/opae/vx_scope.cpp:34-40 | A 3-bit code names a command exactly when it is below 7, and the named command's code is that value. |
| `Commands.Command` | driver/opae/vx_scope.cpp:67 | The low three bits of a command word are the opcode, and the word shifted right by three is the payload modulo 2^61. |
| `Commands.DecodeCommand` | driver/opae/vx_scope.cpp:34-40 | A word decodes exactly when its low three bits are not 7. |
| `Commands.DecodeCommandOfCommand` | driver/opae/vx_scope.cpp:81 | Decoding a command word gives back its opcode and its payload modulo 2^61. |
| `Commands.CommandOfDecodeCommand` | driver/opae/vx_scope.cpp:67 | Every word with a valid opcode is the encoding of its own decoding, so encoding and decoding are inverse. |
| `Commands.CommandInjective` | driver/opae/vx_scope.cpp:81 | Two delays give the same command word if and only if they agree modulo 2^61. |
| `Commands.BareCommand` | driver/opae/vx_scope.cpp:108 | A command with zero payload is its bare opcode, the word written for GET_VALID, GET_DATA and the other queries. |
| `Registers.Channel.Write` | driver/opae/vx_scope.cpp:21-29 | A write succeeds if and only if writes remain. It appends the command to the log and leaves the responses alone. |
| `Registers.Channel.Read` | driver/opae/vx_scope.cpp:110 | A read succeeds if and only if a response remains. It returns the first response and leaves the log alone. |
| `Signals.CalcFrameWidth` | driver/opae/vx_scope.cpp:44-46 | `calcFrameWidth(index)` is at least the width of signal `index` whenever that signal exists. With a signal table of positive widths the frame width is therefore positive. |
| `Signals.CalcFrameWidthIsSum` | driver/opae/vx_scope.cpp:44-48 | `calcFrameWidth(index)` equals the sum of the widths of the signals from `index` on, computed independently from the front. So the frame width is the sum of all widths. |
| `Signals.CalcFrameWidthDecreasing` | driver/opae/vx_scope.cpp:44-46 | With positive widths, `calcFrameWidth(j) < calcFrameWidth(i)` whenever `i < j`. Every signal has its own non-empty bit range in the frame. |
| `Signals.SignalAt` | driver/opae/vx_scope.cpp:161-174 | The signal being filled after `n` frame bits is the one whose range holds `n`, or none once all are complete. |
| `Signals.SignalAtUnique` | driver/opae/vx_scope.cpp:161-174 | Bit `n` lies in exactly one signal's range. |
| `Signals.SignalAtEnd` | driver/opae/vx_scope.cpp:176-177 | Once `frame_width` bits are consumed, no signal is pending. |
| `Bits.FrameBitOfLastWord` | driver/opae/vx_scope.cpp:160-164 | Frame bit `p` is bit `p mod 64` of the word read last. |
| `Bits.BitsToString` | driver/opae/vx_scope.cpp:164 | The k-th consumed bit becomes string character `width-1-k`, and the string has one character per bit. |
| `Bits.BinValueOfBitsToString` | driver/opae/vx_scope.cpp:164-170 | Read as a binary number, the emitted string has the first consumed bit as its least significant bit. |
| `Bits.StringBitsRoundTrip` | driver/opae/vx_scope.cpp:164 | Bits to string and back is the identity, and so is string to bits and back for every binary string. |
| `Bits.BitOfPackWord` | driver/opae/vx_scope.cpp:164 | `(word >> i) & 1` of the reference packer's word is the i-th packed bit. The recorder's packing is the inverse of the driver's bit extraction. |
| `Vcd.WriteHeader` | driver/opae/vx_scope.cpp:86-98 | The header is version, timescale, scope, the clock variable (id 0), then one `$var` per signal with ids 1..N in declaration order, then upscope and enddefinitions. |
| `Vcd.PrintClock` | driver/opae/vx_scope.cpp:50-59 | `print_clock(delta, t)` appends exactly `Clock(delta, t)` and returns `t + 2*delta`. |
| `Vcd.ClockShape` | driver/opae/vx_scope.cpp:51-57 | The clock run holds `delta` periods, each a timestamp, a low level, the next timestamp and a high level. |
| `Vcd.ClockTimes` | driver/opae/vx_scope.cpp:50-59 | The clock's timestamps are exactly `t, t+1, …, t+2*delta-1`: they start at `t` and rise by one each. |
| `Vcd.ClockLastTime` | driver/opae/vx_scope.cpp:55-58 | The last timestamp of a nonempty clock run is the returned timestamp minus one, so the signal records that follow fall at that time. |
| `Vcd.ClockTicks` | driver/opae/vx_scope.cpp:50-59 | The records of `print_clock(delta, t)` carry exactly the timestamps `t, t+1, ..., t+2*delta-1`, in that order. |
| `Vcd.HeaderHasNoTimes` | driver/opae/vx_scope.cpp:86-98 | The header block carries no timestamp. |
| `Frames.WordsPerFrameBounds` | driver/opae/vx_scope.cpp:176-190 | A frame takes `ceil(frame_width/64)` body words. All but the last are full. |
| `Frames.FrameRecordsIgnorePadding` | driver/opae/vx_scope.cpp:176-190 | Two frames whose body words agree on the first `frame_width` bits give the same records: the bits past `frame_width` in the last word are unused, because the frame offset resets to 0 there and the next word is read. |
| `Frames.SignalStringChars` | driver/opae/vx_scope.cpp:160-171 | A signal's string has exactly `width` characters. Character `width-1-k` is frame bit `start+k`, where `start` is the signal's offset in the frame. |
| `Frames.SignalStringValue` | driver/opae/vx_scope.cpp:160-171 | Read as binary, a signal's string is frame bits `[start, start+width)` with the first consumed bit least significant. |
| `Frames.FrameRecordsOrder` | driver/opae/vx_scope.cpp:143-177 | A frame produces one record per signal, with ids `N, N-1, …, 1` in that order. |
| `Frames.SpanExtend` | driver/opae/vx_scope.cpp:157-171 | The records of signals already complete do not change when more words are read. |
| `Frames.PartialComplete` | driver/opae/vx_scope.cpp:176-177 | Once the frame's words are all read, the records written so far are the whole frame's records. |
| `Scope.ScopeStart` | driver/opae/vx_scope.cpp:61-73 | A null handle returns -1 and NO_DELAY returns 0, neither writing anything. Otherwise exactly one SET_DELAY word carrying the delay modulo 2^61 is written: 0 if the write succeeds, -1 if it fails. It never reads. |
| `Scope.Poll` | driver/opae/vx_scope.cpp:107-114 | The poll consumes only zero answers, then the first nonzero one. It writes nothing. |
| `Scope.Query` | driver/opae/vx_scope.cpp:119-120 | A command-then-read exchange answers if and only if a write and a response remain, and the answer is the next response. |
| `Scope.ScopeStop` | driver/opae/vx_scope.cpp:75-199 | `vx_scope_stop` ends exactly as `StopSpec`: handle check, optional SET_STOP, header, drain. |
| `Scope.DrainTrace` | driver/opae/vx_scope.cpp:107-199 | The poll loop followed by the metadata and frames ends exactly as `Drain`. |
| `Scope.ReadMetadataAndFrames` | driver/opae/vx_scope.cpp:118-199 | Width check, count, offset and frames end exactly as `AfterReady`. |
| `Scope.DumpFrames` | driver/opae/vx_scope.cpp:137-199 | GET_DATA, the lead-in clock of `offset+delta+2` periods (64-bit), the frames and the final valid check end exactly as `FromData`. |
| `Scope.DecodeFrames` | driver/opae/vx_scope.cpp:145-192 | The nested decode loops with the in-place `signal_data` buffer end exactly as the frame-level specification `FirstFrame`. |
| `Scope.FetchWord` | driver/opae/vx_scope.cpp:147-158 | Before each word of the last frame, GET_VALID must answer 1 and GET_DATA is rewritten. The word read is the next one the specification consumes. |
| `Scope.DecodeWord` | driver/opae/vx_scope.cpp:160-190 | Consuming one word either ends the dump exactly as `AfterWord` does, or leaves the decoder state from which `FrameFrom` continues identically. |
| `Scope.ScanWord` | driver/opae/vx_scope.cpp:160-190 | The inner bit loop stops at the end of the frame with no signal pending, or at a word boundary with the decoder state intact. |
| `Scope.ConsumeBit` | driver/opae/vx_scope.cpp:161-174 | One bit goes to position `width-1-offset` of the buffer. When a signal completes, its record is appended. The decoder state invariant is kept. |
| `Scope.EmitSignal` | driver/opae/vx_scope.cpp:169-171 | A complete signal's record is its frame bits as a binary string with its id, and the buffer gets its terminator. |
| `Scope.FinishFrame` | driver/opae/vx_scope.cpp:176-188 | At a frame boundary the frame count rises. Unless it reached `max_frames`, the next delta is read and the clock advanced by `delta+1` periods (64-bit). |
| `Scope.PositionStep` | driver/opae/vx_scope.cpp:166-174 | After one bit, either the same signal goes on, or the next lower id starts at offset 0, or the frame is complete. |
| `Scope.FillingStep` | driver/opae/vx_scope.cpp:164 | Storing the current bit at position `width-1-signal_offset` keeps every bit of the signal consumed so far in the buffer, and advances the decoder position as `PositionStep` does. |
| `Scope.FrameStart` | driver/opae/vx_scope.cpp:143-145 | A frame starts at the last declared signal with nothing consumed, and needs at least one word. |
| `Scope.WordBoundary` | driver/opae/vx_scope.cpp:190-192 | At a word boundary inside a frame, the frame needs more words, and decoding stops only if the frame count already equals `max_frames`. |
| `RoundTrip.LayoutLength` | driver/opae/vx_scope.cpp:44-46 | The reference layout of a frame's values has exactly `calcFrameWidth` bits. |
| `RoundTrip.FrameBitOfPack` | driver/opae/vx_scope.cpp:160-164 | The driver's frame bit `p` of the packed body is the p-th bit laid out. |
| `RoundTrip.SignalOfEncodedFrame` | driver/opae/vx_scope.cpp:160-171 | For an encoded frame, the string decoded for each signal is exactly its recorded value. |
| `RoundTrip.DecodeEncodedFrame` | driver/opae/vx_scope.cpp:143-177 | An encoded frame has `ceil(frame_width/64)` words and decodes to the recorded values, ids `N` down to 1. |
| `RoundTrip.EncodeFramesBodies` | driver/opae/vx_scope.cpp:145-192 | Every frame of a well-formed recording, encoded by the reference recorder, decodes to its recorded values. |
| `RoundTrip.BodyWords` | driver/opae/vx_scope.cpp:147-158 | Reading a frame's remaining body words consumes exactly them, plus the `1` answers in the last frame, and logs GET_VALID/GET_DATA before each word of the last frame only. |
| `RoundTrip.WholeFrame` | driver/opae/vx_scope.cpp:147-190 | A whole frame is consumed word by word up to its boundary. |
| `RoundTrip.NextFrame` | driver/opae/vx_scope.cpp:178-185 | After a non-final frame, its records are written, one delta is read and the clock advances by `delta+1` periods. |
| `RoundTrip.LastFrame` | driver/opae/vx_scope.cpp:176-182 | After the final frame, its records are written and no further delta is read. |
| `RoundTrip.MiddleFrame` | driver/opae/vx_scope.cpp:147-192 | A non-final frame yields its recorded values and the clock to the next frame. |
| `RoundTrip.FinalFrame` | driver/opae/vx_scope.cpp:147-192 | The final frame yields its recorded values, with the last-frame valid checks logged. |
| `RoundTrip.FramesFrom` | driver/opae/vx_scope.cpp:145-192 | From frame `k` on, decoding writes the recorded values interleaved with the clock, consumes exactly the frames' words and deltas, and ends at `t + 2*Σ(delta_i+1)`. |
| `RoundTrip.FrameValuesHaveNoTimes` | driver/opae/vx_scope.cpp:169-171 | A frame's value records carry no timestamp. |
| `RoundTrip.RenderFromTimes` | driver/opae/vx_scope.cpp:176-185 | From frame `k` on, the dump adds the timestamps `t, t+1, ...`, two per clock period of each following delta, in order and each once. |
| `StopRoundTrip.PollSkipsZeros` | driver/opae/vx_scope.cpp:107-114 | The poll skips any number of zero answers and stops at the first nonzero one. |
| `StopRoundTrip.QueryAnswered` | driver/opae/vx_scope.cpp:119-120 | An answered query returns the next response and logs the command. |
| `StopRoundTrip.DataQueried` | driver/opae/vx_scope.cpp:137-142 | GET_DATA reads the first delta, and the clock runs `offset+delta+2` periods from timestamp 0. |
| `StopRoundTrip.FinalCheckZero` | driver/opae/vx_scope.cpp:196-199 | A final GET_VALID answer of 0 keeps the dump successful. |
| `StopRoundTrip.FramesThenIdle` | driver/opae/vx_scope.cpp:145-199 | The frames decode to the recording, and the final GET_VALID reads 0. |
| `StopRoundTrip.DataRoundTrip` | driver/opae/vx_scope.cpp:137-199 | From GET_DATA on, the dump is the lead-in clock, then the recorded values and clocks. Its final timestamp is `2*(offset+delta_0+2) + 2*Σ_{i≥1}(delta_i+1)`. |
| `StopRoundTrip.MetadataRead` | driver/opae/vx_scope.cpp:118-135 | With the expected frame width, GET_WIDTH, GET_COUNT and GET_OFFSET are issued in order, and decoding goes on with the reported count and offset. |
| `StopRoundTrip.ReadyRoundTrip` | driver/opae/vx_scope.cpp:118-199 | After the poll, a recording with the right width and count is dumped in full. |
| `StopRoundTrip.DrainRoundTrip` | driver/opae/vx_scope.cpp:107-199 | Poll, metadata, frames and final check consume every answer and log exactly GET_VALID, GET_WIDTH, GET_COUNT, GET_OFFSET, GET_DATA, a GET_VALID/GET_DATA pair per word of the last frame, and GET_VALID. |
| `StopRoundTrip.StopArmedRecording` | driver/opae/vx_scope.cpp:75-199 | With a stop delay, SET_STOP is logged first. The VCD file is the header, the lead-in clock and the recorded values with the clocks between them. |
| `StopRoundTrip.StopAtOnceRecording` | driver/opae/vx_scope.cpp:75-199 | With NO_DELAY the same holds, and no SET_STOP is written. |
| `StopRoundTrip.StopDecodesEncodedRecording` | driver/opae/vx_scope.cpp:75-199 | For every well-formed recording on the reference recorder's stream, `vx_scope_stop` returns 0. It consumes every answer, writes exactly the recorded values on the deltas' clock, and ends at the closed-form timestamp. |
| `StopRoundTrip.DumpTicks` | driver/opae/vx_scope.cpp:140-185 | A dump made of the header, `offset+delta+2` lead periods and the rendered frames has the timestamps `0, 1, ..., T-1`, where `T` is its final timestamp. |
| `StopRoundTrip.StopDumpTimes` | driver/opae/vx_scope.cpp:101-192 | On a well-formed recording, the timestamps of the whole VCD dump are `0, 1, ..., T-1`, where `T` is the timestamp `vx_scope_stop` ends with: the clock never goes back, repeats or skips a value. |
| `StopRoundTrip.WidthMismatchAborts` | driver/opae/vx_scope.cpp:119-126 | A device frame width other than `calcFrameWidth()` aborts right after GET_WIDTH, with only the header written and no data word read. |
| `StopRoundTrip.LastFrameNotValidAborts` | driver/opae/vx_scope.cpp:148-154 | In the last frame, a valid flag other than 1 aborts. Only the records of signals already complete are kept. |
| `StopRoundTrip.StillValidAborts` | driver/opae/vx_scope.cpp:196-199 | A nonzero GET_VALID after the last frame aborts and keeps the whole dump. |
| `Truncation.ReadCut` | driver/opae/vx_scope.cpp:21-29 | On a register pair with a prefix of the responses, a read that has a response left answers as on the full pair. |
| `Truncation.QueryCut` | driver/opae/vx_scope.cpp:21-29 | A query that answers on the cut register pair answers the same on the full one. A query that fails on the full pair fails on the cut one. A query that fails only on the cut pair lacked a response or a write the full run used. |
| `Truncation.PollCut` | driver/opae/vx_scope.cpp:107-114 | A poll that runs out of answers before the full poll's ready answer fails. With every answer the full poll read, it ends the same, leaving the rest as a prefix. |
| `Truncation.FrameFromCut` | driver/opae/vx_scope.cpp:145-192 | Frame decoding on the cut pair returns -1 if the pair lacks an answer or a write the full run used, and otherwise ends exactly as on the full pair. |
| `Truncation.ReadWordCut` | driver/opae/vx_scope.cpp:147-158 | The same for reading one body word, with the last-frame GET_VALID/GET_DATA pair. |
| `Truncation.AfterWordCut` | driver/opae/vx_scope.cpp:160-190 | The same for the decoding that follows one body word, including the next delta read. |
| `Truncation.FinalCheckCut` | driver/opae/vx_scope.cpp:196-199 | The same for the closing GET_VALID check. |
| `Truncation.FromDataCut` | driver/opae/vx_scope.cpp:137-199 | The same from GET_DATA on: lead-in clock, frames and final check. |
| `Truncation.AfterCountCut` | driver/opae/vx_scope.cpp:133-199 | The same from GET_OFFSET on. |
| `Truncation.AfterWidthCut` | driver/opae/vx_scope.cpp:128-199 | The same from GET_COUNT on. |
| `Truncation.AfterReadyCut` | driver/opae/vx_scope.cpp:118-199 | The same from GET_WIDTH on. |
| `Truncation.FromPollCut` | driver/opae/vx_scope.cpp:108-199 | The same from the readiness poll on. |
| `Truncation.DrainCut` | driver/opae/vx_scope.cpp:107-199 | The same from the first GET_VALID on. |
| `Truncation.StopCut` | driver/opae/vx_scope.cpp:75-199 | `vx_scope_stop` on a register pair that lacks an answer or a write the full run used returns -1. Otherwise it ends with the same status, VCD and timestamp. |
| `Truncation.TruncatedStreamFails` | driver/opae/vx_scope.cpp:21-29 | On a well-formed recording's stream cut to any proper prefix, `vx_scope_stop` returns -1: every answer of the stream is needed. |
| `Truncation.WriteBudgetFails` | driver/opae/vx_scope.cpp:21-29 | If fewer writes complete than the dump needs (two per body word of the last frame, plus six, plus one for SET_STOP), `vx_scope_stop` returns -1. |

## Left out

- The OPAE/VLSIM register calls, `fpgaErrStr` and the error printout are not modelled (`driver/opae/vx_scope.cpp:8-12, 21-32`). They are foreign calls. The channel value stands in for them, and any failed access returns -1.
- The one-second sleep between polls is not modelled. The poll is a loop over the finite response stream; running out of responses counts as a failed read. The real driver polls for ever.
- `std::ofstream` and `std::cout` text formatting are not modelled, and neither is the "cycles" printout of `timestamp/2` (line 194). The VCD output is a sequence of records.
- The contents of `scope_signals` come from `scope-defs.h`, which is not part of this model. The table is a parameter: at least one signal, every width positive.
- The unused `SCOPE_FRAME_WIDTH` (line 19) is not modelled.
- Scope.ReadMetadataAndFrames: compares the device's 64-bit frame width with `calcFrameWidth()` as an unbounded integer. It does not model the `(int)` truncation of line 123, which would also accept a width whose low 32 bits match.
- Scope.DecodeFrames: `max_frames == 0` (line 148) is modelled as written. `max_frames-1` then wraps, so no frame counts as the last one. The loop ends after the first incomplete word, or goes on reading until a read fails. The round-trip theorems assume at least one frame.
- Vcd.PrintClock: timestamps are unbounded naturals, so the 64-bit wrap-around of `timestamp` is not modelled. The period counts `offset+delta+2` and `delta+1` are computed modulo 2^64, as in the driver.
- StopRoundTrip.StopDecodesEncodedRecording: covers recorders whose poll answers are zeros followed by 1. Any nonzero ready answer behaves the same (`StopRoundTrip.PollSkipsZeros`).
- Scope.Fault: the model assumes assertions are enabled. Built with `NDEBUG`, the `assert`s of lines 152 and 199 do not stop the dump: decoding goes on with a last-frame valid flag other than 1, and a nonzero final GET_VALID returns 0.
