/**
 * The decompression driver: one decoder session, one 4096-byte transfer
 * buffer, and a loop of decoder steps whose output is drained into a growing
 * accumulator until the decoder reports the end of the stream or an error.
 */
module XzDecom {
  import opened Wrappers
  import opened XzSys
  import opened XzEngine

  /** Capacity of the transfer buffer. */
  const OUT_SIZE: nat := 4096

  /** Dictionary ceiling handed to the decoder (1 << 26 bytes). */
  const DICT_MAX: nat := 0x400_0000

  /** `XZError`: a fixed message and, for decoder failures, the raw code as its cause. */
  datatype XZError = XZError(msg: string, code: Option<XzRawError>)

  /** `Error::cause`: the wrapped raw error, when there is one. */
  function Cause(e: XZError): (c: Option<XzRawError>)
    ensures c.Some? <==> e.code.Some?
    ensures c.Some? ==> c.value == e.code.value
  {
    match e.code
    case Some(raw) => Some(raw)
    case None => None
  }

  const InitFailed := XZError("Failed to initialize", None)

  const InputExhausted := XZError("Reached end of input buffer", None)

  /** The error returned when the decoder reports a code other than XZ_OK and XZ_STREAM_END. */
  function DecoderFailure(ret: XzRet): (e: XZError)
    ensures Cause(e) == Some(FromRet(ret)) && Cause(e).value.code == ret
    ensures e != InitFailed && e != InputExhausted
  {
    XZError("Decompressing error", Some(FromRet(ret)))
  }

  /**
   * The driver loop over a decoder `engine` from state `s`, input cursor
   * `inPos` and accumulated output `acc`, with a transfer buffer of `outSize`
   * cells whose cursor is 0 at the top of every iteration.
   */
  function Drive(engine: Engine, s: DecState, inPos: nat, inSize: nat, outSize: nat, acc: seq<byte>): (r: Result<seq<byte>, XZError>)
    requires Honours(engine) && inPos <= inSize
    // the loop never fails with the initialisation error
    ensures r.Err? ==> r.error != InitFailed
    decreases Rank(s), |s.pending|, StallCredit(s)
  {
    var r := engine(s, inSize - inPos, outSize);
    if r.ret == XzOk then
      if inPos + r.consumed == inSize then Err(InputExhausted)
      else Drive(engine, r.next, inPos + r.consumed, inSize, outSize, acc + r.written)
    else if r.ret == XzStreamEnd then Ok(acc + r.written)
    else Err(DecoderFailure(r.ret))
  }

  /** The driver loop over the decoder modelled by `Step`. */
  function DriveStep(s: DecState, inPos: nat, inSize: nat, outSize: nat, acc: seq<byte>): Result<seq<byte>, XZError>
    requires inPos <= inSize
  {
    StepHonoursContract();
    Drive(Step, s, inPos, inSize, outSize, acc)
  }

  /** An XZ_OK iteration `r` that leaves input unread hands over to the next iteration. */
  lemma DriveStepContinues(s: DecState, inPos: nat, inSize: nat, outSize: nat, acc: seq<byte>, r: StepResult)
    requires inPos <= inSize && r == Step(s, inSize - inPos, outSize)
    requires r.ret == XzOk && inPos + r.consumed < inSize
    ensures DriveStep(s, inPos, inSize, outSize, acc) == DriveStep(r.next, inPos + r.consumed, inSize, outSize, acc + r.written)
  {
  }

  /** Every other iteration `r` ends the loop. */
  lemma DriveStepStops(s: DecState, inPos: nat, inSize: nat, outSize: nat, acc: seq<byte>, r: StepResult)
    requires inPos <= inSize && r == Step(s, inSize - inPos, outSize)
    ensures r.ret == XzOk && inPos + r.consumed == inSize ==> DriveStep(s, inPos, inSize, outSize, acc) == Err(InputExhausted)
    ensures r.ret == XzStreamEnd ==> DriveStep(s, inPos, inSize, outSize, acc) == Ok(acc + r.written)
    ensures r.ret != XzOk && r.ret != XzStreamEnd ==> DriveStep(s, inPos, inSize, outSize, acc) == Err(DecoderFailure(r.ret))
  {
  }

  /** What `decompress` returns for an input of `inSize` bytes that the decoder handles as `events`. */
  function Decompression(inSize: nat, events: seq<Event>, allocationSucceeds: bool): (r: Result<seq<byte>, XZError>)
    ensures r == Err(InitFailed) <==> !allocationSucceeds
  {
    if !allocationSucceeds then Err(InitFailed)
    else DriveStep(Initial(events), 0, inSize, OUT_SIZE, [])
  }

  /** On success the driver returns what it had accumulated followed by everything the decoder owed. */
  lemma {:induction false} DriveOutput(engine: Engine, s: DecState, inPos: nat, inSize: nat, outSize: nat, acc: seq<byte>)
    requires Honours(engine) && inPos <= inSize
    ensures Drive(engine, s, inPos, inSize, outSize, acc).Ok? ==> Drive(engine, s, inPos, inSize, outSize, acc).value == acc + Owed(s)
    decreases Rank(s), |s.pending|, StallCredit(s), 1
  {
    var r := engine(s, inSize - inPos, outSize);
    assert StepContract(s, inSize - inPos, outSize, r);
    if r.ret == XzOk && inPos + r.consumed < inSize {
      DriveOutputContinues(engine, s, inPos, inSize, outSize, acc, r);
    } else if r.ret == XzStreamEnd {
      assert Drive(engine, s, inPos, inSize, outSize, acc) == Ok(acc + r.written);
      assert r.written == r.written + Owed(r.next);
    }
  }

  /** The output claim of `DriveOutput` across an XZ_OK iteration `r` that leaves input unread. */
  lemma {:induction false} DriveOutputContinues(engine: Engine, s: DecState, inPos: nat, inSize: nat, outSize: nat,
                                                acc: seq<byte>, r: StepResult)
    requires Honours(engine) && inPos <= inSize && r == engine(s, inSize - inPos, outSize)
    requires r.ret == XzOk && inPos + r.consumed < inSize
    ensures Drive(engine, s, inPos, inSize, outSize, acc).Ok? ==> Drive(engine, s, inPos, inSize, outSize, acc).value == acc + Owed(s)
    decreases Rank(s), |s.pending|, StallCredit(s), 0
  {
    assert StepContract(s, inSize - inPos, outSize, r);
    var acc' := acc + r.written;
    assert Drive(engine, s, inPos, inSize, outSize, acc) == Drive(engine, r.next, inPos + r.consumed, inSize, outSize, acc');
    DriveOutput(engine, r.next, inPos + r.consumed, inSize, outSize, acc');
    AppendOwed(acc, r.written, Owed(r.next));
  }

  /**
   * The error taxonomy of the driver: a failure without cause is the
   * exhausted-input failure, and a failure with a cause is a decoder failure
   * carrying a code other than XZ_OK and XZ_STREAM_END.
   */
  lemma {:induction false} DriveErrors(engine: Engine, s: DecState, inPos: nat, inSize: nat, outSize: nat, acc: seq<byte>)
    requires Honours(engine) && inPos <= inSize
    requires Drive(engine, s, inPos, inSize, outSize, acc).Err?
    ensures var e := Drive(engine, s, inPos, inSize, outSize, acc).error;
      && (e.code.None? ==> e == InputExhausted)
      && (e.code.Some? ==> e == DecoderFailure(e.code.value.code)
                           && e.code.value.code != XzOk && e.code.value.code != XzStreamEnd)
    decreases Rank(s), |s.pending|, StallCredit(s)
  {
    var r := engine(s, inSize - inPos, outSize);
    assert StepContract(s, inSize - inPos, outSize, r);
    if r.ret == XzOk && inPos + r.consumed < inSize {
      DriveErrors(engine, r.next, inPos + r.consumed, inSize, outSize, acc + r.written);
    }
  }

  /**
   * Whenever the driver succeeds, over any decoder that honours the step
   * contract, it returns exactly the decoded content of the stream, whatever
   * the size of the transfer buffer.
   */
  lemma OutputIsWidthFree(engine: Engine, events: seq<Event>, inSize: nat, outSize1: nat, outSize2: nat)
    requires Honours(engine)
    requires Drive(engine, Initial(events), 0, inSize, outSize1, []).Ok?
    requires Drive(engine, Initial(events), 0, inSize, outSize2, []).Ok?
    ensures Drive(engine, Initial(events), 0, inSize, outSize1, []) == Drive(engine, Initial(events), 0, inSize, outSize2, [])
    ensures Drive(engine, Initial(events), 0, inSize, outSize1, []).value == Decoded(events)
  {
    DriveOutput(engine, Initial(events), 0, inSize, outSize1, []);
    DriveOutput(engine, Initial(events), 0, inSize, outSize2, []);
  }

  /** Every XZ_OK event of the trace takes some input. */
  predicate Progressive(events: seq<Event>) {
    forall i :: 0 <= i < |events| ==> events[i].ret == XzOk ==> 0 < events[i].consume
  }

  /**
   * The driver's answer read off the trace alone, from input cursor `inPos`:
   * `None` when it reaches the end of the stream, otherwise its error.
   */
  function Verdict(events: seq<Event>, inPos: nat, inSize: nat): Option<XZError>
    requires inPos <= inSize
    decreases |events|
  {
    if events == [] then Some(DecoderFailure(XzBufError))
    else if events[0].ret == XzOk then
      var p := inPos + Min(events[0].consume, inSize - inPos);
      if p == inSize then Some(InputExhausted) else Verdict(events[1..], p, inSize)
    else if events[0].ret == XzStreamEnd then None
    else Some(DecoderFailure(events[0].ret))
  }

  /**
   * With an output window of at least one byte, the driver over `Step`
   * returns what `Verdict` predicts, with all owed output on success: extra
   * calls that only drain pending output change nothing else.
   */
  lemma {:induction false} DriveFollowsVerdict(s: DecState, inPos: nat, inSize: nat, outSize: nat, acc: seq<byte>)
    requires !s.finished && Progressive(s.events) && inPos < inSize && 0 < outSize
    ensures DriveStep(s, inPos, inSize, outSize, acc) == Predicted(s, inPos, inSize, acc)
    decreases Rank(s), |s.pending|, StallCredit(s), 2
  {
    if s.events == [] {
      PastTraceFollowsVerdict(s, inPos, inSize, outSize, acc);
    } else if s.events[0].ret == XzOk {
      OkEventFollowsVerdict(s, inPos, inSize, outSize, acc);
    } else if s.events[0].ret == XzStreamEnd {
      EndEventFollowsVerdict(s, inPos, inSize, outSize, acc);
    } else {
      var r := Step(s, inSize - inPos, outSize);
      DriveStepStops(s, inPos, inSize, outSize, acc, r);
      StepOnErrorEvent(s, inSize - inPos, outSize);
    }
  }

  /** What `Verdict` predicts the driver returns from state `s` with accumulator `acc`. */
  function Predicted(s: DecState, inPos: nat, inSize: nat, acc: seq<byte>): Result<seq<byte>, XZError>
    requires inPos <= inSize
  {
    match Verdict(s.events, inPos, inSize)
    case None => Ok(acc + Owed(s))
    case Some(e) => Err(e)
  }

  lemma {:induction false} PastTraceFollowsVerdict(s: DecState, inPos: nat, inSize: nat, outSize: nat, acc: seq<byte>)
    requires !s.finished && s.events == [] && inPos < inSize && 0 < outSize
    ensures DriveStep(s, inPos, inSize, outSize, acc) == Predicted(s, inPos, inSize, acc)
    decreases Rank(s), |s.pending|, StallCredit(s), 1
  {
    var r := Step(s, inSize - inPos, outSize);
    StepPastTrace(s, inSize - inPos, outSize);
    if r.ret == XzOk {
      ContinueFollowsVerdict(s, inPos, inSize, outSize, acc, r);
    } else {
      DriveStepStops(s, inPos, inSize, outSize, acc, r);
    }
  }

  lemma {:induction false} OkEventFollowsVerdict(s: DecState, inPos: nat, inSize: nat, outSize: nat, acc: seq<byte>)
    requires !s.finished && s.events != [] && s.events[0].ret == XzOk
    requires Progressive(s.events) && inPos < inSize && 0 < outSize
    ensures DriveStep(s, inPos, inSize, outSize, acc) == Predicted(s, inPos, inSize, acc)
    decreases Rank(s), |s.pending|, StallCredit(s), 1
  {
    var r := Step(s, inSize - inPos, outSize);
    StepOnOkEvent(s, inSize - inPos, outSize);
    if inPos + r.consumed < inSize {
      ProgressiveRest(s);
      ContinueFollowsVerdict(s, inPos, inSize, outSize, acc, r);
    } else {
      DriveStepStops(s, inPos, inSize, outSize, acc, r);
    }
  }

  lemma {:induction false} EndEventFollowsVerdict(s: DecState, inPos: nat, inSize: nat, outSize: nat, acc: seq<byte>)
    requires !s.finished && s.events != [] && s.events[0].ret == XzStreamEnd
    requires Progressive(s.events) && inPos < inSize && 0 < outSize
    ensures DriveStep(s, inPos, inSize, outSize, acc) == Predicted(s, inPos, inSize, acc)
    decreases Rank(s), |s.pending|, StallCredit(s), 1
  {
    var r := Step(s, inSize - inPos, outSize);
    StepOnEndEvent(s, inSize - inPos, outSize);
    if r.ret == XzOk {
      ProgressiveRest(s);
      ContinueFollowsVerdict(s, inPos, inSize, outSize, acc, r);
    } else {
      DriveStepStops(s, inPos, inSize, outSize, acc, r);
      StepConserves(s, inSize - inPos, outSize);
      assert r.written + Owed(r.next) == r.written;
    }
  }

  /**
   * A call `r` that returns XZ_OK, leaves input unread and keeps the verdict
   * hands the prediction over to the next iteration.
   */
  lemma {:induction false} ContinueFollowsVerdict(s: DecState, inPos: nat, inSize: nat, outSize: nat, acc: seq<byte>, r: StepResult)
    requires inPos < inSize && 0 < outSize && r == Step(s, inSize - inPos, outSize)
    requires r.ret == XzOk && inPos + r.consumed < inSize
    requires !r.next.finished && Progressive(r.next.events)
    requires Verdict(r.next.events, inPos + r.consumed, inSize) == Verdict(s.events, inPos, inSize)
    ensures DriveStep(s, inPos, inSize, outSize, acc) == Predicted(s, inPos, inSize, acc)
    decreases Rank(s), |s.pending|, StallCredit(s), 0
  {
    var next := DriveStep(r.next, inPos + r.consumed, inSize, outSize, acc + r.written);
    assert DriveStep(s, inPos, inSize, outSize, acc) == next by {
      DriveStepContinues(s, inPos, inSize, outSize, acc, r);
    }
    assert next == Predicted(r.next, inPos + r.consumed, inSize, acc + r.written) by {
      DriveFollowsVerdict(r.next, inPos + r.consumed, inSize, outSize, acc + r.written);
    }
    assert (acc + r.written) + Owed(r.next) == acc + Owed(s) by {
      StepConserves(s, inSize - inPos, outSize);
      AppendOwed(acc, r.written, Owed(r.next));
    }
  }

  /** The events left after a call, or held back by one, still all make progress. */
  lemma ProgressiveRest(s: DecState)
    requires !s.finished && s.events != [] && Progressive(s.events)
    ensures Progressive(s.events[1..]) && Progressive(Held(s))
  {
    forall i | 0 <= i < |Held(s)|
      ensures Held(s)[i].ret == s.events[i].ret && Held(s)[i].consume == s.events[i].consume
    {
      if 0 < i {
        assert Held(s)[i] == s.events[1..][i - 1];
      }
    }
  }

  lemma AppendOwed(acc: seq<byte>, written: seq<byte>, owed: seq<byte>)
    ensures (acc + written) + owed == acc + (written + owed)
  {
  }

  /**
   * The size of the transfer buffer does not change the answer: for a
   * non-empty input whose XZ_OK events all take input, any two output
   * windows of at least one byte give the same result, and a success is the
   * decoded content of the stream.
   */
  lemma ChunkingInvariance(events: seq<Event>, inSize: nat, outSize1: nat, outSize2: nat)
    requires Progressive(events) && 0 < inSize && 0 < outSize1 && 0 < outSize2
    ensures DriveStep(Initial(events), 0, inSize, outSize1, []) == DriveStep(Initial(events), 0, inSize, outSize2, [])
    ensures DriveStep(Initial(events), 0, inSize, outSize1, []).Ok? ==>
            DriveStep(Initial(events), 0, inSize, outSize1, []).value == Decoded(events)
  {
    DriveFollowsVerdict(Initial(events), 0, inSize, outSize1, []);
    DriveFollowsVerdict(Initial(events), 0, inSize, outSize2, []);
    assert [] + Owed(Initial(events)) == Decoded(events);
  }

  /** No event of the trace reports the end of the stream. */
  predicate Unterminated(events: seq<Event>) {
    forall i :: 0 <= i < |events| ==> events[i].ret != XzStreamEnd
  }

  /** A decoder that never reaches the end of the stream makes the driver fail. */
  lemma {:induction false} UnterminatedDriveFails(s: DecState, inPos: nat, inSize: nat, outSize: nat, acc: seq<byte>)
    requires inPos <= inSize && !s.finished && Unterminated(s.events)
    ensures DriveStep(s, inPos, inSize, outSize, acc).Err?
    decreases Rank(s), |s.pending|, StallCredit(s)
  {
    var r := Step(s, inSize - inPos, outSize);
    DriveStepStops(s, inPos, inSize, outSize, acc, r);
    assert r.ret != XzStreamEnd && r.next.events == Later(s) && !r.next.finished;
    if r.ret == XzOk && inPos + r.consumed < inSize {
      DriveStepContinues(s, inPos, inSize, outSize, acc, r);
      UnterminatedDriveFails(r.next, inPos + r.consumed, inSize, outSize, acc + r.written);
    }
  }

  /**
   * `decompress` never returns a partial result: a stream whose decoder never
   * reports its end, as a truncated one, always fails.
   */
  lemma TruncatedTraceFails(inSize: nat, events: seq<Event>, allocationSucceeds: bool)
    requires Unterminated(events)
    ensures Decompression(inSize, events, allocationSucceeds).Err?
  {
    if allocationSucceeds {
      UnterminatedDriveFails(Initial(events), 0, inSize, OUT_SIZE, []);
    }
  }

  /** A successful decompression is exactly the decoded content of the stream, in order. */
  lemma DecompressionIsDecoded(inSize: nat, events: seq<Event>, allocationSucceeds: bool)
    requires Decompression(inSize, events, allocationSucceeds).Ok?
    ensures allocationSucceeds
    ensures Decompression(inSize, events, allocationSucceeds).value == Decoded(events)
  {
    StepHonoursContract();
    DriveOutput(Step, Initial(events), 0, inSize, OUT_SIZE, []);
  }

  /** Every failure of `decompress` is one of the three kinds the driver produces. */
  lemma DecompressionErrors(inSize: nat, events: seq<Event>, allocationSucceeds: bool)
    requires Decompression(inSize, events, allocationSucceeds).Err?
    ensures var e := Decompression(inSize, events, allocationSucceeds).error;
      || e == InitFailed
      || e == InputExhausted
      || (e.code.Some? && e == DecoderFailure(e.code.value.code)
          && e.code.value.code != XzOk && e.code.value.code != XzStreamEnd)
    ensures !allocationSucceeds <==> Decompression(inSize, events, allocationSucceeds) == Err(InitFailed)
  {
    StepHonoursContract();
    if allocationSucceeds {
      DriveErrors(Step, Initial(events), 0, inSize, OUT_SIZE, []);
    }
  }

  /**
   * The exhausted-input check follows only XZ_OK: a step that reports the end
   * of the stream after consuming the last input byte is a success.
   */
  lemma StreamEndOnLastByteSucceeds(engine: Engine, s: DecState, inPos: nat, inSize: nat, outSize: nat, acc: seq<byte>)
    requires Honours(engine) && inPos <= inSize
    requires engine(s, inSize - inPos, outSize).ret == XzStreamEnd
    requires engine(s, inSize - inPos, outSize).consumed == inSize - inPos
    ensures Drive(engine, s, inPos, inSize, outSize, acc) == Ok(acc + Owed(s))
  {
    var r := engine(s, inSize - inPos, outSize);
    assert StepContract(s, inSize - inPos, outSize, r);
    assert r.written + Owed(r.next) == r.written;
  }

  /**
   * One pass of the loop in `decompress`: a decoder step `r`, then the
   * transfer buffer is drained into the accumulator after XZ_OK and
   * XZ_STREAM_END. `stop` is the value `decompress` returns when the pass ends
   * the loop: the output after XZ_STREAM_END, the exhausted-input error after
   * an XZ_OK that left no input, a decoder failure for every other code.
   */
  method Pass(dec: XzDec, buf: XzBuf, acc: seq<byte>) returns (next: seq<byte>, stop: Option<Result<seq<byte>, XZError>>)
    requires dec.Valid() && !dec.ended && buf.Valid() && buf.outPos == 0
    modifies dec`events, dec`pending, dec`finished, dec`allowBufError, buf`inPos, buf`outPos, buf.out
    ensures dec.Valid() && !dec.ended && buf.Valid()
    ensures buf.inSize == old(buf.inSize) && buf.outSize == old(buf.outSize)
    ensures var r := Step(old(dec.State()), old(buf.inSize - buf.inPos), buf.outSize);
      && dec.State() == r.next
      && buf.inPos == old(buf.inPos) + r.consumed
      && next == acc + r.written
      && stop == if r.ret == XzOk then (if buf.inPos == buf.inSize then Some(Err(InputExhausted)) else None)
                 else if r.ret == XzStreamEnd then Some(Ok(next))
                 else Some(Err(DecoderFailure(r.ret)))
    ensures stop.None? ==> buf.outPos == 0
  {
    var ret := dec.Run(buf);
    next, stop := Drain(buf, acc, ret);
  }

  /**
   * The match on the decoder's code after a step: the chunk `out_buf[..out_pos]`
   * is appended to the accumulator, and after XZ_OK the output cursor is
   * reset to 0 and the loop stops only on exhausted input.
   */
  method Drain(buf: XzBuf, acc: seq<byte>, ret: XzRet) returns (next: seq<byte>, stop: Option<Result<seq<byte>, XZError>>)
    requires buf.Valid()
    modifies buf`outPos
    ensures buf.Valid() && buf.inPos == old(buf.inPos)
    ensures next == acc + old(buf.out[..buf.outPos])
    ensures stop == if ret == XzOk then (if buf.inPos == buf.inSize then Some(Err(InputExhausted)) else None)
                    else if ret == XzStreamEnd then Some(Ok(next))
                    else Some(Err(DecoderFailure(ret)))
    ensures ret == XzOk ==> buf.outPos == 0
    ensures ret != XzOk ==> buf.outPos == old(buf.outPos)
    ensures stop.None? ==> buf.outPos == 0
  {
    next := acc + buf.out[..buf.outPos];
    if ret == XzOk {
      buf.outPos := 0;
      if buf.inPos == buf.inSize {
        return next, Some(Err(InputExhausted));
      }
      stop := None;
    } else if ret == XzStreamEnd {
      stop := Some(Ok(next));
    } else {
      stop := Some(Err(DecoderFailure(ret)));
    }
  }

  /**
   * A pass seen from the driver's specification: a pass that ends the loop
   * returns what `DriveStep` predicts from the state before it, and a pass
   * that does not leaves a state from which `DriveStep` predicts the same
   * answer and that is closer to a different one.
   */
  method Iterate(dec: XzDec, buf: XzBuf, acc: seq<byte>) returns (next: seq<byte>, stop: Option<Result<seq<byte>, XZError>>)
    requires dec.Valid() && !dec.ended && buf.Valid() && buf.outPos == 0
    modifies dec`events, dec`pending, dec`finished, dec`allowBufError, buf`inPos, buf`outPos, buf.out
    ensures dec.Valid() && !dec.ended && buf.Valid()
    ensures buf.inSize == old(buf.inSize) && buf.outSize == old(buf.outSize)
    ensures stop.Some? ==> stop.value == DriveStep(old(dec.State()), old(buf.inPos), buf.inSize, buf.outSize, acc)
    ensures stop.None? ==> && buf.outPos == 0
                           && Below(dec.State(), old(dec.State()))
                           && DriveStep(dec.State(), buf.inPos, buf.inSize, buf.outSize, next)
                              == DriveStep(old(dec.State()), old(buf.inPos), buf.inSize, buf.outSize, acc)
  {
    ghost var s0, in0 := dec.State(), buf.inPos;
    next, stop := Pass(dec, buf, acc);
    PassOutcome(s0, in0, buf.inSize, buf.outSize, acc, next, stop, dec.State(), buf.inPos);
  }

  /** The answer of a pass from state `s0` and input cursor `in0`, as `Pass` states it, against `DriveStep`. */
  lemma PassOutcome(s0: DecState, in0: nat, inSize: nat, outSize: nat, acc: seq<byte>,
                    next: seq<byte>, stop: Option<Result<seq<byte>, XZError>>, s1: DecState, in1: nat)
    requires in0 <= inSize
    requires var r := Step(s0, inSize - in0, outSize);
      && s1 == r.next && in1 == in0 + r.consumed && next == acc + r.written
      && stop == if r.ret == XzOk then (if in1 == inSize then Some(Err(InputExhausted)) else None)
                 else if r.ret == XzStreamEnd then Some(Ok(next))
                 else Some(Err(DecoderFailure(r.ret)))
    ensures in1 <= inSize
    ensures stop.Some? ==> stop.value == DriveStep(s0, in0, inSize, outSize, acc)
    ensures stop.None? ==> && Below(s1, s0)
                           && DriveStep(s1, in1, inSize, outSize, next) == DriveStep(s0, in0, inSize, outSize, acc)
  {
    var r := Step(s0, inSize - in0, outSize);
    if stop.Some? {
      DriveStepStops(s0, in0, inSize, outSize, acc, r);
    } else {
      DriveStepContinues(s0, in0, inSize, outSize, acc, r);
    }
  }

  /**
   * `decompress`: the loop over decoder passes, from a drained transfer
   * buffer, until a pass ends it. Its answer is the one `DriveStep` predicts.
   */
  method RunLoop(dec: XzDec, buf: XzBuf) returns (res: Result<seq<byte>, XZError>)
    requires dec.Valid() && !dec.ended && buf.Valid() && buf.outPos == 0
    modifies dec`events, dec`pending, dec`finished, dec`allowBufError, buf`inPos, buf`outPos, buf.out
    ensures dec.Valid() && !dec.ended
    ensures res == DriveStep(old(dec.State()), old(buf.inPos), old(buf.inSize), old(buf.outSize), [])
  {
    ghost var outcome := DriveStep(dec.State(), buf.inPos, buf.inSize, buf.outSize, []);
    var acc: seq<byte> := [];
    while true
      invariant dec.Valid() && !dec.ended && buf.Valid() && buf.outPos == 0
      invariant buf.inSize == old(buf.inSize) && buf.outSize == old(buf.outSize)
      invariant DriveStep(dec.State(), buf.inPos, buf.inSize, buf.outSize, acc) == outcome
      decreases Rank(dec.State()), |dec.pending|, StallCredit(dec.State())
    {
      var stop;
      acc, stop := Iterate(dec, buf, acc);
      if stop.Some? {
        return stop.value;
      }
    }
  }

  /**
   * `decompress` as written: initialise the decoder, allocate the transfer
   * buffer, run the loop, and release the decoder only when the loop ends
   * with the end of the stream.
   */
  method Decompress(compressed: seq<byte>, events: seq<Event>, allocationSucceeds: bool)
    returns (res: Result<seq<byte>, XZError>, ghost session: XzDec?)
    ensures res == Decompression(|compressed|, events, allocationSucceeds)
    ensures session == null <==> !allocationSucceeds
    ensures session != null ==> (session.ended <==> res.Ok?)
  {
    DynallocAdmitsEveryTrace(events);
    var state := XzDec.Init(XzDynalloc, DICT_MAX, events, allocationSucceeds);
    session := state;
    if state == null {
      return Err(InitFailed), session;
    }
    var outBuf := new byte[OUT_SIZE];
    var buf := new XzBuf(compressed, outBuf, OUT_SIZE);
    res := RunLoop(state, buf);
    if res.Ok? {
      state.End();
    }
  }

  /** `decompress` with the decoder released before every return once it exists. */
  method DecompressReleasing(compressed: seq<byte>, events: seq<Event>, allocationSucceeds: bool)
    returns (res: Result<seq<byte>, XZError>, ghost session: XzDec?)
    ensures res == Decompression(|compressed|, events, allocationSucceeds)
    ensures session == null <==> !allocationSucceeds
    ensures session != null ==> session.ended
  {
    DynallocAdmitsEveryTrace(events);
    var state := XzDec.Init(XzDynalloc, DICT_MAX, events, allocationSucceeds);
    session := state;
    if state == null {
      return Err(InitFailed), session;
    }
    var outBuf := new byte[OUT_SIZE];
    var buf := new XzBuf(compressed, outBuf, OUT_SIZE);
    res := RunLoop(state, buf);
    state.End();
  }
}
