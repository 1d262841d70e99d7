# xz-decom in Dafny

A model of the `xz-decom` crate's decompression driver. `decompress` takes a
whole .xz stream and returns its decompressed bytes or an `XZError`. The model
also covers the parts of the `xz-embedded-sys` bindings the driver relies on:

- the nine-way return code `xz_ret` and the operation modes `xz_mode`;
- the raw error wrapper `XZRawError` with its fixed descriptions;
- the in/out window `xz_buf`;
- the documented contract of the decoder calls `xz_dec_init`, `xz_dec_run`
  and `xz_dec_end`.

The decoder itself is C code reached through FFI. It is not re-implemented.
`xz_dec_run` is an abstract engine driven by a trace of events, and each
event says three things: how much input the decoder takes, which decoded
bytes it makes available, and which code it reports. On top of the trace,
one call of the engine follows the documented rules of the multi-call modes:

- it consumes no more input than the input window holds;
- it writes no more output than the output window has room for;
- decoded bytes that do not fit stay pending for the next call, so nothing
  is lost or repeated;
- it reports XZ_STREAM_END only once nothing is pending, and XZ_OK ("more
  output space is required") otherwise;
- a second call in a row that returns XZ_OK without progress becomes
  XZ_BUF_ERROR.

The model adds one rule of its own, which the bindings do not document: while
the end of the stream waits for output space, the input that carries it is
not consumed either.

Files:

- `wrappers.dfy`: `Option` and `Result`.
- `xz_sys.dfy` (module `XzSys`): `byte`, `XzRet`, `XzMode`, `XzRawError`
  with `FromRet` and `Description`, and the `XzBuf` window. `XzBuf` is a
  class because the caller and the decoder both move its cursors in place.
- `xz_engine.dfy` (module `XzEngine`): the engine.
  - `Step` is the value-level specification of one `xz_dec_run`.
  - `Owed` is everything the decoder still has to deliver, and every call
    keeps `written + Owed(next) == Owed(before)` (`StepConserves`).
  - The class `XzDec` is the decoder handle. Its `Run` writes into the
    window's output array exactly what `Step` delivers.
- `xz_decom.dfy` (module `XzDecom`): the driver.
  - `Drive` is the value-level specification of the loop. It works over any
    engine that honours the step contract.
  - `RunLoop` is the `while` loop over the mutable window, proved equal to
    `Drive` over `Step`.
  - `Decompress` is the whole of `decompress`.
  - The lemmas give the meaning of a result. A success is exactly the decoded
    content of the stream. For a non-empty input whose XZ_OK events all take
    input, the answer does not depend on the size of the transfer buffer. A stream whose decoder never reports its end always
    fails. Every failure is one of three kinds.
- `scenarios.dfy` (module `Scenarios`): the crate's tests on concrete decoder
  traces.

The driver's loop terminates because of what the engine promises. After an
XZ_OK, the decoder is strictly closer to another answer under the
lexicographic measure `(Rank, |pending|, StallCredit)`:

- `Rank` counts the events left in the trace, and whether the next one still
  has output to hand over;
- `pending` is the decoded output still waiting for room;
- `StallCredit` is the one no-progress XZ_OK still allowed.

## Model

| member | source | states |
|---|---|---|
| XzSys.FromRet | xz-embedded-sys/lib.rs:30-34 | wrapping a return code keeps the code unchanged |
| XzSys.FromRetInjective | xz-embedded-sys/lib.rs:30-34 | two wrapped codes are equal exactly when the codes are |
| XzSys.Description | xz-embedded-sys/lib.rs:36-50 | every one of the nine codes has a non-empty fixed message |
| XzSys.DescriptionsDistinct | xz-embedded-sys/lib.rs:37-49 | two raw errors have the same description exactly when they are the same error |
| XzSys.MayReturn | xz-embedded-sys/lib.rs:100-131 | the codes each mode may return, as the documentation lists them: every mode may end or reject a stream, and only a multi-call mode may report XZ_MEM_ERROR |
| XzSys.OnlyDynallocAdmitsEveryCode | xz-embedded-sys/lib.rs:98-132 | every code, XZ_OK and XZ_MEM_ERROR included, is possible exactly in XZ_DYNALLOC, the mode `decompress` selects |
| XzSys.SingleCallCodes | xz-embedded-sys/lib.rs:62-67 | single-call mode never returns XZ_OK, XZ_MEM_ERROR or XZ_MEMLIMIT_ERROR |
| XzSys.XzBuf.constructor | src/lib.rs:73-81 | a new window covers the whole input and the first `outSize` output cells, with both cursors at 0 and within bounds |
| XzEngine.Step | xz-embedded-sys/lib.rs:82-89 | one decoder call stays within both windows; after XZ_STREAM_END nothing is owed; after XZ_OK the decoder is strictly closer to another answer |
| XzEngine.StepConserves | xz-embedded-sys/lib.rs:100-104 | a call's output followed by what the decoder still owes is exactly what it owed before: output that did not fit is neither lost nor repeated |
| XzEngine.StepHonoursContract | xz-embedded-sys/lib.rs:227-246 | `Step` satisfies the step contract the driver is proved against, for every state and window |
| XzEngine.NoSecondStall | xz-embedded-sys/lib.rs:84-89 | after a call that returned XZ_OK without consuming or producing anything, a second such call does not return XZ_OK |
| XzEngine.StepPastTrace | xz-embedded-sys/lib.rs:82-89 | once its trace is used up the decoder consumes nothing and never reports the end of the stream |
| XzEngine.StepOnOkEvent | xz-embedded-sys/lib.rs:100-104 | an XZ_OK event that takes input is reported as XZ_OK and consumes its input, up to what the window holds, whatever the output window |
| XzEngine.StepOnEndEvent | xz-embedded-sys/lib.rs:100-107 | at the end of the stream a call either reports XZ_STREAM_END, or returns XZ_OK without consuming the input that carries the end while the output does not fit |
| XzEngine.StepOnErrorEvent | xz-embedded-sys/lib.rs:98-150 | any code other than XZ_OK and XZ_STREAM_END is reported as it is |
| XzEngine.StepReturnsAllowedCode | xz-embedded-sys/lib.rs:98-132 | in a multi-call mode, a decoder whose trace holds only codes of that mode returns only such codes, and so does the rest of its trace |
| XzEngine.DynallocAdmitsEveryTrace | xz-embedded-sys/lib.rs:75-79 | in XZ_DYNALLOC every code, XZ_MEM_ERROR included, may be returned, so every trace is possible for the decoder `decompress` creates |
| XzEngine.XzDec.Init | xz-embedded-sys/lib.rs:222-225 | `xz_dec_init` returns a handle exactly when allocation succeeds; the new handle is fresh, not released, at the start of its trace, and its trace holds only codes its mode allows, so an XZ_PREALLOC decoder never reports XZ_MEM_ERROR |
| XzEngine.XzDec.Run | xz-embedded-sys/lib.rs:157-176 | `xz_dec_run` keeps both cursors within their windows and only moves them forward; it writes at the output cursor exactly the bytes `Step` delivers; it leaves the output before the old cursor and after the new one untouched; the new decoder state is the one `Step` gives; the code is one the decoder's mode allows |
| XzEngine.XzDec.End | xz-embedded-sys/lib.rs:260-263 | `xz_dec_end` releases a handle that was not yet released |
| XzDecom.Cause | src/lib.rs:21-30 | the cause is present exactly when the error carries a raw code, and it is that raw code |
| XzDecom.DecoderFailure | src/lib.rs:93 | the error for any other code carries that code as its cause, and is neither the initialisation nor the exhausted-input error |
| XzDecom.Drive | src/lib.rs:83-100 | the loop over any decoder honouring the step contract, as a value; it never fails with the initialisation error |
| XzDecom.Decompression | src/lib.rs:54-107 | the result of `decompress`; it is the initialisation error exactly when allocation fails |
| XzDecom.DriveStepContinues | src/lib.rs:86-88 | an XZ_OK step that leaves input unread hands over, with its output appended, to the next iteration |
| XzDecom.DriveStepStops | src/lib.rs:89-98 | XZ_OK on exhausted input gives the input error; XZ_STREAM_END gives the accumulator with the last chunk; every other code gives a decoder failure carrying that code |
| XzDecom.DriveOutput | src/lib.rs:83-104 | on success the driver returns the accumulated output followed by everything the decoder owed, in order, for any engine honouring the step contract |
| XzDecom.DriveErrors | src/lib.rs:92-98 | a failure without a cause is the exhausted-input error; a failure with a cause is the decoding error carrying a code other than XZ_OK and XZ_STREAM_END |
| XzDecom.OutputIsWidthFree | src/lib.rs:67-91 | over any decoder honouring the step contract, any two transfer-buffer sizes for which the driver succeeds give the same output, the decoded content of the stream |
| XzDecom.DriveFollowsVerdict | src/lib.rs:83-100 | for a decoder that has not finished and whose remaining XZ_OK events all take input, with a transfer buffer of at least one byte and input left, the driver returns what `Verdict` reads off the trace alone: all owed output when the trace reaches the end of the stream before the input runs out, otherwise the first error |
| XzDecom.ChunkingInvariance | src/lib.rs:67-100 | for a non-empty input whose XZ_OK events all take input, any two transfer-buffer sizes of at least one byte give the same result, and a success is the decoded content of the stream |
| XzDecom.UnterminatedDriveFails | src/lib.rs:83-100 | from any state that has not reached the end of the stream, a decoder that never reports XZ_STREAM_END makes the loop fail |
| XzDecom.TruncatedTraceFails | src/lib.rs:54-107 | `decompress` never returns a partial result: if the decoder never reports XZ_STREAM_END, the result is an error |
| XzDecom.DecompressionIsDecoded | src/lib.rs:54-107 | a successful `decompress` had a decoder and returns exactly the decoded content of the stream |
| XzDecom.DecompressionErrors | src/lib.rs:60-98 | every failure of `decompress` is the initialisation error, the exhausted-input error, or a decoding error with a code other than XZ_OK and XZ_STREAM_END; the initialisation error happens exactly when allocation fails |
| XzDecom.StreamEndOnLastByteSucceeds | src/lib.rs:89-99 | XZ_STREAM_END after consuming the last input byte is a success holding all owed output; the exhausted-input check follows only XZ_OK |
| XzDecom.Drain | src/lib.rs:86-99 | the match on the code: the chunk `out_buf[..out_pos]` is appended to the accumulator; after XZ_OK `out_pos` is reset to 0 and the loop stops only on exhausted input; XZ_STREAM_END stops it with success; any other code stops it with that code as the cause |
| XzDecom.Pass | src/lib.rs:84-99 | one pass: the decoder step, then after XZ_OK the chunk `out_buf[..out_pos]` is appended and `out_pos` reset to 0, and the loop stops on exhausted input; after XZ_STREAM_END the chunk is appended and the loop stops with success; any other code stops it with that code as the cause |
| XzDecom.Iterate | src/lib.rs:83-100 | a pass that ends the loop returns what `Drive` predicts; a pass that does not end it leaves a drained buffer and a state that is strictly closer to another answer, from which `Drive` predicts the same answer |
| XzDecom.RunLoop | src/lib.rs:83-100 | the loop keeps the window bounds and `out_pos == 0` at every decoder call, leaves the decoder unreleased, and returns exactly what `Drive` over `Step` predicts |
| XzDecom.Decompress | src/lib.rs:54-107 | `decompress` as written: its result is `Decompression`; a decoder exists exactly when allocation succeeds; the decoder is released exactly when the result is a success |
| XzDecom.DecompressReleasing | src/lib.rs:54-107 | `decompress` with the decoder released on every path once it exists, with the same result |
| Scenarios.FullHelloStep | xz-embedded-sys/lib.rs:295-338 | one call over the 64-byte "hello" stream with a 32-byte window reports XZ_STREAM_END, writes 5 bytes "hello", and consumes all input |
| Scenarios.PartialHelloSteps | xz-embedded-sys/lib.rs:342-393 | with a 2-byte window the first call writes "he" with XZ_OK (that it consumes nothing comes from the assumed trace); after widening the window to 5 the second reports XZ_STREAM_END with "hello" in the buffer and all input consumed |
| Scenarios.DecompressHello | tests/tests.rs:6-12 | `decompress` of the "hello" stream returns "hello" |
| Scenarios.DecompressGarbage | tests/tests.rs:14-27 | `decompress` of "not a valid xz file" fails with a cause, the XZ_FORMAT_ERROR code and its message |
| Scenarios.DecompressTruncated | tests/tests.rs:29-42 | `decompress` of the first 30 bytes of the "hello" stream fails with the exhausted-input error and no cause |
| Scenarios.GarbageLeaksDecoder | src/lib.rs:92-93 | as written, a failed `decompress` leaves its decoder unreleased |
| Scenarios.GarbageReleasesDecoder | src/lib.rs:102 | with the release on every path, the same failed call releases its decoder |
| Scenarios.HelloThroughBuffer | tests/tests.rs:6-12 | the driver loop over the "hello" stream returns "hello" with a transfer buffer of any size from one byte up |
| Scenarios.HelloAtWidths | src/lib.rs:69-100 | the driver over the "hello" stream returns "hello" with transfer buffers of 1, 2 and 4096 bytes |
| Scenarios.ExhaustionCheckIgnoresUnfinishedDecoder | src/lib.rs:95-98 | a decoder that takes its last input byte and fills a one- or two-byte transfer buffer, so that XZ_OK means it needs more output space, and that would report the end of the stream on its next call, makes the driver fail |

## Left out

- The LZMA2/BCJ decoding, the .xz container parsing and the integrity checks happen inside the C decoder. They are represented by the event trace, so whether an input is truncated or corrupt is what its trace says.
- `xz_crc32_init`, `xz_crc32`, `xz_crc64_init` and `xz_crc64`: the CRC tables are C code and do not affect the driver's results. The two init calls at src/lib.rs:57-58 are not modelled.
- `xz_dec_reset` is never called by the driver.
- XzEngine.XzDec.Init: the constructor requires a multi-call mode. The single-call mode XZ_SINGLE, which `decompress` never selects, is left out; only its return codes are stated (`SingleCallCodes`).
- XzEngine.XzDec.Init: `dictMax` is stored but not enforced. A dictionary that is too large is an XZ_MEMLIMIT_ERROR or XZ_MEM_ERROR event in the trace.
- XzEngine.XzDec.Init: an allocation failure of `xz_dec_init` is the parameter `allocationSucceeds`.
- Raw pointers and `unsafe` blocks: the input is a `seq<byte>` and the output buffer an `array<byte>` with explicit cursors. Cursors and sizes are unbounded naturals, because `size_t` and `u64` cannot overflow for inputs that fit in memory.
- `Display` and `Debug` formatting, and the `println!` calls in the tests, are not modelled.
- Releasing the decoder: `xz_dec_end` frees the decoder state (xz-embedded-sys/lib.rs:260-263). The code calls it only before returning `Ok` (src/lib.rs:102), so the returns at src/lib.rs:93 and src/lib.rs:98 leak it. `Decompress` follows the code; see Findings.
- XzEngine.Step: holding back the end of the stream, and the input that carries it, until the output fits is a modelling rule. The bindings do not document when the decoder consumes the stream's last bytes.
- The exhausted-input check (src/lib.rs:95-98) looks only at the input cursor. A decoder that takes all its input and fills the output window returns XZ_OK because it needs more output space; if it would report the end of the stream on its next call, the driver fails. `Scenarios.ExhaustionCheckIgnoresUnfinishedDecoder` shows this on the model for windows of one and two bytes. Whether the C decoder ever leaves the end of a complete .xz stream for a later call after filling the window is not documented by the bindings, so it is not claimed as a defect.
- XzEngine.Step: the documented meaning of XZ_OK, that more input or more output space is required (xz-embedded-sys/lib.rs:100-101), is not enforced. An XZ_OK event may come with input and output room both left. The driver theorems quantify over every trace, so they also cover such decoders.
- XzDecom.ChunkingInvariance: stated only for a non-empty input and for traces whose XZ_OK events all take input. Traces with an XZ_OK event that takes no input are not covered. With an empty input, an end of stream held back for output space makes the first XZ_OK fail the exhausted-input check, so there the answer does depend on the output window. The invariance is also a property of this engine model: one trace serves every output window, and `Step` holds back the end of the stream until the output fits. A decoder whose use of input depends on the window is not covered.

## Findings

| source | as written | input that shows it | evidently intended | confidence | as-written member | corrected member |
|---|---|---|---|---|---|---|
| src/lib.rs:92-98 | the returns after a decoding error and after exhausted input skip `xz_dec_end`, so the decoder state allocated at src/lib.rs:60-62 is never released | the bytes of "not a valid xz file", on which the decoder reports XZ_FORMAT_ERROR | release the decoder before every return once it has been allocated | high; not executed | Scenarios.GarbageLeaksDecoder | XzDecom.DecompressReleasing |
