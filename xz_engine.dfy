/**
 * The decoder behind `xz_dec_run`, seen only through its documented contract.
 *
 * The decoding itself is not modelled. What the decoder does with a stream
 * is given as a trace of `Event`s: each event says how many input bytes the
 * decoder wants to consume, which decoded bytes it makes available, and which
 * code it reports. One call of the decoder processes one event against the
 * current windows: it consumes no more input than the window holds, writes no
 * more output than the window has room for, and keeps decoded bytes that did
 * not fit for the next call. On top of that sit the documented rules of the
 * multi-call modes: XZ_STREAM_END only once every decoded byte has been
 * written out (otherwise XZ_OK, "more output space is required"), and
 * XZ_BUF_ERROR instead of a second XZ_OK in a row without progress. While
 * the end of the stream waits for output space, the input that carries it
 * is not consumed either, so the input of the event that ends the stream is
 * consumed only by the call that reports the end.
 */
module XzEngine {
  import opened XzSys

  /** One decoding event: input wanted, decoded output produced, code reported. */
  datatype Event = Event(consume: nat, produce: seq<byte>, ret: XzRet)

  /**
   * The decoder state between calls: the events still to come, decoded bytes
   * waiting for output space, whether the end of the stream has been decoded,
   * and whether the previous call returned XZ_OK without progress.
   */
  datatype DecState = DecState(events: seq<Event>, pending: seq<byte>, finished: bool, allowBufError: bool)

  /** What one call did: the code, the input consumed and the bytes written at the output cursor. */
  datatype StepResult = StepResult(ret: XzRet, consumed: nat, written: seq<byte>, next: DecState)

  function Initial(events: seq<Event>): DecState {
    DecState(events, [], false, false)
  }

  function Min(a: nat, b: nat): nat {
    if a <= b then a else b
  }

  /** The decoded content of a trace: its output up to and including the end of the stream. */
  function Decoded(events: seq<Event>): seq<byte> {
    if events == [] then []
    else if events[0].ret == XzStreamEnd then events[0].produce
    else events[0].produce + Decoded(events[1..])
  }

  /** Everything the decoder still owes its caller from state `s`. */
  function Owed(s: DecState): seq<byte> {
    if s.finished then s.pending else s.pending + Decoded(s.events)
  }

  /**
   * A termination measure of repeated XZ_OK calls, with the pending output
   * and the stall flag: each event left counts twice, and once more while the
   * next one still has output to hand over.
   */
  function Rank(s: DecState): nat {
    if s.finished then 0
    else 2 * |s.events| + (if s.events != [] && s.events[0].produce != [] then 1 else 0) + 1
  }

  function StallCredit(s: DecState): nat {
    if s.allowBufError then 0 else 1
  }

  predicate Below(t: DecState, s: DecState) {
    Rank(t) < Rank(s)
    || (Rank(t) == Rank(s) && |t.pending| < |s.pending|)
    || (Rank(t) == Rank(s) && |t.pending| == |s.pending| && StallCredit(t) < StallCredit(s))
  }

  /** The event the next call works on: a trailing flush once finished, an idle event past the trace. */
  function Current(s: DecState): Event {
    if s.finished then Event(0, [], XzStreamEnd)
    else if s.events == [] then Event(0, [], XzOk)
    else s.events[0]
  }

  function Later(s: DecState): seq<Event> {
    if s.finished || s.events == [] then s.events else s.events[1..]
  }

  /** The trace after the current event has handed over its output but not yet ended the stream. */
  function Held(s: DecState): seq<Event> {
    [Event(Current(s).consume, [], Current(s).ret)] + Later(s)
  }

  /** What is owed splits into the pending bytes, the current event's output and the rest of the stream. */
  lemma OwedSplit(s: DecState)
    ensures Owed(s) == s.pending + Current(s).produce
                       + (if s.finished || Current(s).ret == XzStreamEnd then [] else Decoded(Later(s)))
  {
    if !s.finished && s.events != [] {
      assert Decoded(s.events) == if Current(s).ret == XzStreamEnd then Current(s).produce
                                  else Current(s).produce + Decoded(Later(s));
    }
  }

  /**
   * Writing the first `n` of the pending and newly decoded bytes and keeping
   * the rest pending loses and repeats nothing.
   */
  lemma DeliverConserves(s: DecState, n: nat, stalled: bool)
    requires n <= |s.pending + Current(s).produce|
    ensures var all := s.pending + Current(s).produce;
      all[..n] + Owed(DecState(Later(s), all[n..], s.finished || Current(s).ret == XzStreamEnd, stalled)) == Owed(s)
  {
    var all := s.pending + Current(s).produce;
    var finished := s.finished || Current(s).ret == XzStreamEnd;
    var rest: seq<byte> := if finished then [] else Decoded(Later(s));
    assert Owed(DecState(Later(s), all[n..], finished, stalled)) == all[n..] + rest;
    OwedSplit(s);
    SplitAt(all, n, rest);
  }

  /**
   * Holding back the end of the stream, with the first `n` bytes written and
   * the rest pending, loses and repeats nothing either.
   */
  lemma HoldConserves(s: DecState, n: nat, stalled: bool)
    requires !s.finished && Current(s).ret == XzStreamEnd
    requires n <= |s.pending + Current(s).produce|
    ensures var all := s.pending + Current(s).produce;
      all[..n] + Owed(DecState(Held(s), all[n..], false, stalled)) == Owed(s)
  {
    var all := s.pending + Current(s).produce;
    assert Owed(DecState(Held(s), all[n..], false, stalled)) == all[n..] + [];
    OwedSplit(s);
    SplitAt(all, n, []);
  }

  lemma SplitAt(all: seq<byte>, n: nat, rest: seq<byte>)
    requires n <= |all|
    ensures all[..n] + (all[n..] + rest) == all + rest
  {
    assert all[..n] + all[n..] == all;
  }

  /**
   * One multi-call `xz_dec_run` with `inAvail` input bytes and `outAvail`
   * output cells left in the windows. That it delivers exactly what is owed
   * is `StepConserves`.
   */
  function Step(s: DecState, inAvail: nat, outAvail: nat): (r: StepResult)
    // the cursors advance and stay within their windows
    ensures r.consumed <= inAvail && |r.written| <= outAvail
    // XZ_STREAM_END means the decoder owes nothing more
    ensures r.ret == XzStreamEnd ==> Owed(r.next) == []
    // a call that returns XZ_OK brings the decoder closer to a different answer
    ensures r.ret == XzOk ==> Below(r.next, s)
  {
    var e := Current(s);
    var all := s.pending + e.produce;
    var n := Min(|all|, outAvail);
    if !s.finished && e.ret == XzStreamEnd && n < |all| then
      // the end of the stream, and the input that carries it, wait until the output fits
      var stalled := n == 0;
      StepResult(if stalled && s.allowBufError then XzBufError else XzOk, 0, all[..n],
                 DecState(Held(s), all[n..], false, stalled))
    else
      var consumed := Min(e.consume, inAvail);
      var ret0 := if e.ret == XzStreamEnd && n < |all| then XzOk else e.ret;
      var stalled := ret0 == XzOk && consumed == 0 && n == 0;
      StepResult(if stalled && s.allowBufError then XzBufError else ret0, consumed, all[..n],
                 DecState(Later(s), all[n..], s.finished || e.ret == XzStreamEnd, stalled))
  }

  /** One call delivers output in order: what it writes followed by what is still owed is what was owed. */
  lemma StepConserves(s: DecState, inAvail: nat, outAvail: nat)
    ensures Step(s, inAvail, outAvail).written + Owed(Step(s, inAvail, outAvail).next) == Owed(s)
  {
    var e := Current(s);
    var all := s.pending + e.produce;
    var n := Min(|all|, outAvail);
    if !s.finished && e.ret == XzStreamEnd && n < |all| {
      HoldConserves(s, n, n == 0);
    } else {
      var ret0 := if e.ret == XzStreamEnd && n < |all| then XzOk else e.ret;
      DeliverConserves(s, n, ret0 == XzOk && Min(e.consume, inAvail) == 0 && n == 0);
    }
  }

  /**
   * What the driver relies on from one decoder call in state `s` with
   * `inAvail` input bytes and `outAvail` output cells: the bounds, the
   * in-order delivery of what is owed, nothing owed after XZ_STREAM_END,
   * and progress towards another answer after XZ_OK.
   */
  ghost predicate StepContract(s: DecState, inAvail: nat, outAvail: nat, r: StepResult) {
    && r.consumed <= inAvail && |r.written| <= outAvail
    && r.written + Owed(r.next) == Owed(s)
    && (r.ret == XzStreamEnd ==> Owed(r.next) == [])
    && (r.ret == XzOk ==> Below(r.next, s))
  }

  /** A decoder step function, of which `Step` is the one modelled here. */
  type Engine = (DecState, nat, nat) -> StepResult

  ghost predicate Honours(engine: Engine) {
    forall s: DecState, inAvail: nat, outAvail: nat :: StepContract(s, inAvail, outAvail, engine(s, inAvail, outAvail))
  }

  lemma StepHonoursContract()
    ensures Honours(Step)
  {
    forall s: DecState, inAvail: nat, outAvail: nat
      ensures StepContract(s, inAvail, outAvail, Step(s, inAvail, outAvail))
    {
      StepConserves(s, inAvail, outAvail);
    }
  }

  /**
   * The progress guarantee of the multi-call modes: after a call that returned
   * XZ_OK without consuming input or producing output, a second such call
   * does not return XZ_OK again.
   */
  lemma {:induction false} NoSecondStall(s: DecState, in1: nat, out1: nat, in2: nat, out2: nat)
    requires Step(s, in1, out1).ret == XzOk
    requires Step(s, in1, out1).consumed == 0 && Step(s, in1, out1).written == []
    requires Step(Step(s, in1, out1).next, in2, out2).consumed == 0
    requires Step(Step(s, in1, out1).next, in2, out2).written == []
    ensures Step(Step(s, in1, out1).next, in2, out2).ret != XzOk
  {
  }

  /** Past the trace, a call consumes nothing, never ends the stream and stays past the trace. */
  lemma StepPastTrace(s: DecState, inAvail: nat, outAvail: nat)
    requires !s.finished && s.events == []
    ensures var r := Step(s, inAvail, outAvail);
      r.ret != XzStreamEnd && r.consumed == 0 && r.next.events == [] && !r.next.finished
  {
  }

  /** An XZ_OK event that takes input is consumed with XZ_OK whatever the output window. */
  lemma StepOnOkEvent(s: DecState, inAvail: nat, outAvail: nat)
    requires !s.finished && s.events != [] && s.events[0].ret == XzOk
    requires 0 < s.events[0].consume && 0 < inAvail
    ensures var r := Step(s, inAvail, outAvail);
      && r.ret == XzOk && r.consumed == Min(s.events[0].consume, inAvail)
      && r.next.events == s.events[1..] && !r.next.finished
  {
  }

  /**
   * The end of the stream is either reported, or, while output does not fit,
   * held back with XZ_OK without consuming its input.
   */
  lemma StepOnEndEvent(s: DecState, inAvail: nat, outAvail: nat)
    requires !s.finished && s.events != [] && s.events[0].ret == XzStreamEnd && 0 < outAvail
    ensures var r := Step(s, inAvail, outAvail);
      || r.ret == XzStreamEnd
      || (r.ret == XzOk && r.consumed == 0 && r.next.events == Held(s) && !r.next.finished)
  {
  }

  /** Any other code of the trace is reported as it is. */
  lemma StepOnErrorEvent(s: DecState, inAvail: nat, outAvail: nat)
    requires !s.finished && s.events != [] && s.events[0].ret != XzOk && s.events[0].ret != XzStreamEnd
    ensures Step(s, inAvail, outAvail).ret == s.events[0].ret
  {
  }

  /** Every code of the trace is one that mode `m` may return. */
  predicate Admissible(m: XzMode, events: seq<Event>) {
    events == [] || (MayReturn(m, events[0].ret) && Admissible(m, events[1..]))
  }

  /** In a multi-call mode the decoder returns only codes that mode allows. */
  lemma StepReturnsAllowedCode(m: XzMode, s: DecState, inAvail: nat, outAvail: nat)
    requires IsMultiCall(m) && Admissible(m, s.events)
    ensures MayReturn(m, Step(s, inAvail, outAvail).ret)
    ensures Admissible(m, Step(s, inAvail, outAvail).next.events)
  {
  }

  /** XZ_DYNALLOC admits every trace. */
  lemma {:induction false} DynallocAdmitsEveryTrace(events: seq<Event>)
    ensures Admissible(XzDynalloc, events)
  {
    if events != [] {
      OnlyDynallocAdmitsEveryCode(XzDynalloc);
      DynallocAdmitsEveryTrace(events[1..]);
    }
  }

  /** Writes `data` into `out` from index `start`, leaving every other cell alone. */
  method CopyInto(out: array<byte>, start: nat, data: seq<byte>)
    requires start + |data| <= out.Length
    modifies out
    ensures out[start..start + |data|] == data
    ensures forall k :: 0 <= k < out.Length && !(start <= k < start + |data|) ==> out[k] == old(out[k])
  {
    var i := 0;
    while i < |data|
      invariant 0 <= i <= |data|
      invariant forall k :: 0 <= k < out.Length ==>
        out[k] == if start <= k < start + i then data[k - start] else old(out[k])
    {
      out[start + i] := data[i];
      i := i + 1;
    }
  }

  /**
   * The decoder state `xz_dec`, allocated by `xz_dec_init` and released by
   * `xz_dec_end`. `ended` records the release.
   */
  class XzDec {
    const mode: XzMode
    const dictMax: nat
    var events: seq<Event>
    var pending: seq<byte>
    var finished: bool
    var allowBufError: bool
    var ended: bool

    function State(): DecState
      reads this
    {
      DecState(events, pending, finished, allowBufError)
    }

    /** A multi-call decoder whose remaining trace holds only codes its mode allows. */
    ghost predicate Valid()
      reads this
    {
      IsMultiCall(mode) && Admissible(mode, events)
    }

    constructor (mode: XzMode, dictMax: nat, events: seq<Event>)
      requires IsMultiCall(mode) && Admissible(mode, events)
      ensures Valid() && this.mode == mode && this.dictMax == dictMax
      ensures State() == Initial(events) && !ended
    {
      this.mode, this.dictMax := mode, dictMax;
      this.events, pending, finished, allowBufError := events, [], false, false;
      ended := false;
    }

    /** `xz_dec_init`: returns no decoder when the allocation fails. */
    static method Init(mode: XzMode, dictMax: nat, events: seq<Event>, allocationSucceeds: bool) returns (s: XzDec?)
      requires IsMultiCall(mode) && Admissible(mode, events)
      ensures allocationSucceeds <==> s != null
      ensures s != null ==> fresh(s) && s.Valid() && s.mode == mode && s.dictMax == dictMax
      ensures s != null ==> s.State() == Initial(events) && !s.ended
    {
      if allocationSucceeds {
        s := new XzDec(mode, dictMax, events);
      } else {
        s := null;
      }
    }

    /**
     * `xz_dec_run`: one step over the windows of `b`. Both cursors only grow
     * and stay within their windows, the bytes before the old output cursor
     * and after the new one are left alone, what is written is exactly what
     * `Step` delivers, and the code is one the decoder's mode allows.
     */
    method Run(b: XzBuf) returns (ret: XzRet)
      requires Valid() && !ended && b.Valid()
      modifies this`events, this`pending, this`finished, this`allowBufError, b`inPos, b`outPos, b.out
      ensures Valid() && !ended && b.Valid()
      ensures MayReturn(mode, ret)
      ensures b.inSize == old(b.inSize) && b.outSize == old(b.outSize)
      ensures var r := Step(old(State()), old(b.inSize - b.inPos), old(b.outSize - b.outPos));
        && ret == r.ret
        && State() == r.next
        && b.inPos == old(b.inPos) + r.consumed
        && b.outPos == old(b.outPos) + |r.written|
        && b.out[old(b.outPos)..b.outPos] == r.written
      ensures b.out[..old(b.outPos)] == old(b.out[..b.outPos])
      ensures forall k :: b.outPos <= k < b.out.Length ==> b.out[k] == old(b.out[k])
    {
      var r := Step(State(), b.inSize - b.inPos, b.outSize - b.outPos);
      assert MayReturn(mode, r.ret) && Admissible(mode, r.next.events) by {
        StepReturnsAllowedCode(mode, State(), b.inSize - b.inPos, b.outSize - b.outPos);
      }
      var start := b.outPos;
      CopyInto(b.out, start, r.written);
      b.inPos := b.inPos + r.consumed;
      b.outPos := start + |r.written|;
      events, pending, finished, allowBufError := r.next.events, r.next.pending, r.next.finished, r.next.allowBufError;
      ret := r.ret;
    }

    /** `xz_dec_end`: releases the decoder, which must not be used or released again. */
    method End()
      requires !ended
      modifies this`ended
      ensures ended
    {
      ended := true;
    }
  }
}
