/**
 * The behaviours exercised by the crate's tests, on concrete decoder traces.
 * The traces are assumed, not derived from the decoder: the 64-byte "hello"
 * stream decodes in one event, a file that is not .xz at all is rejected at
 * once with XZ_FORMAT_ERROR, and the first 30 bytes of the "hello" stream are
 * consumed with XZ_OK and the stream left unfinished.
 */
module Scenarios {
  import opened Wrappers
  import opened XzSys
  import opened XzEngine
  import opened XzDecom

  /** The 64-byte .xz stream of the text "hello". */
  const HelloXz: seq<byte> := [
    0xfd, 0x37, 0x7a, 0x58, 0x5a, 0x00, 0x00, 0x04, 0xe6, 0xd6, 0xb4, 0x46, 0x02, 0x00, 0x21, 0x01,
    0x16, 0x00, 0x00, 0x00, 0x74, 0x2f, 0xe5, 0xa3, 0x01, 0x00, 0x04, 0x68, 0x65, 0x6c, 0x6c, 0x6f,
    0x00, 0x00, 0x00, 0x00, 0xb1, 0x37, 0xb9, 0xdb, 0xe5, 0xda, 0x1e, 0x9b, 0x00, 0x01, 0x1d, 0x05,
    0xb8, 0x2d, 0x80, 0xaf, 0x1f, 0xb6, 0xf3, 0x7d, 0x01, 0x00, 0x00, 0x00, 0x00, 0x04, 0x59, 0x5a]

  /** The bytes of "hello". */
  const Hello: seq<byte> := [0x68, 0x65, 0x6c, 0x6c, 0x6f]

  /** The bytes of "not a valid xz file". */
  const Garbage: seq<byte> := [
    0x6e, 0x6f, 0x74, 0x20, 0x61, 0x20, 0x76, 0x61, 0x6c, 0x69,
    0x64, 0x20, 0x78, 0x7a, 0x20, 0x66, 0x69, 0x6c, 0x65]

  /** Assumed trace of the whole "hello" stream: everything consumed, "hello" decoded, end of stream. */
  const HelloTrace: seq<Event> := [Event(64, Hello, XzStreamEnd)]

  /** Assumed trace of input that is not .xz: the header rejected, taking no input. */
  const GarbageTrace: seq<Event> := [Event(0, [], XzFormatError)]

  /** Assumed trace of the first 30 bytes of the "hello" stream: all consumed, part of the text decoded, no end. */
  const TruncatedTrace: seq<Event> := [Event(30, Hello[..3], XzOk)]

  /**
   * One call with a 32-byte output window decodes the whole stream: the end
   * of the stream is reported, five bytes are written, all input is consumed.
   */
  method FullHelloStep() returns (ret: XzRet, outPos: nat, inPos: nat, inSize: nat, text: seq<byte>)
    ensures ret == XzStreamEnd && outPos == 5 && inPos == inSize && text == Hello
  {
    DynallocAdmitsEveryTrace(HelloTrace);
    var dec := XzDec.Init(XzDynalloc, DICT_MAX, HelloTrace, true);
    var out := new byte[32](_ => 0);
    var buf := new XzBuf(HelloXz, out, 32);
    ret := dec.Run(buf);
    outPos, inPos, inSize := buf.outPos, buf.inPos, buf.inSize;
    text := out[..buf.outPos];
    dec.End();
  }

  /**
   * A 2-byte output window takes two calls: the first writes "he" and asks
   * for more output space with XZ_OK, holding back the end of the stream and
   * its input; the second, after the window is widened to 5, writes the rest,
   * consumes the input and reports the end of the stream. That the first call
   * consumes nothing follows from the one-event assumed trace and the holding
   * of the end of the stream, not from the crate's test.
   */
  method PartialHelloSteps() returns (ret1: XzRet, text1: seq<byte>, in1: nat, ret2: XzRet, text2: seq<byte>, in2: nat)
    ensures ret1 == XzOk && text1 == Hello[..2] && in1 == 0
    ensures ret2 == XzStreamEnd && text2 == Hello && in2 == |HelloXz|
  {
    DynallocAdmitsEveryTrace(HelloTrace);
    var dec := XzDec.Init(XzDynalloc, DICT_MAX, HelloTrace, true);
    var out := new byte[32](_ => 0);
    var buf := new XzBuf(HelloXz, out, 2);
    ret1 := dec.Run(buf);
    text1, in1 := out[..buf.outPos], buf.inPos;
    buf.outSize := 5;
    ret2 := dec.Run(buf);
    text2, in2 := out[..buf.outPos], buf.inPos;
  }

  /** `decompress` of the "hello" stream returns "hello". */
  method DecompressHello() returns (res: Result<seq<byte>, XZError>)
    ensures res == Ok(Hello)
  {
    ghost var session;
    res, session := Decompress(HelloXz, HelloTrace, true);
    StepHonoursContract();
    assert Step(Initial(HelloTrace), 64, OUT_SIZE).ret == XzStreamEnd;
    StreamEndOnLastByteSucceeds(Step, Initial(HelloTrace), 0, 64, OUT_SIZE, []);
    assert Owed(Initial(HelloTrace)) == [] + Hello == Hello;
  }

  /** `decompress` of a file that is not .xz fails with the decoder's code as the cause. */
  method DecompressGarbage() returns (res: Result<seq<byte>, XZError>)
    ensures res.Err? && Cause(res.error) == Some(FromRet(XzFormatError))
    ensures res.Err? && Description(Cause(res.error).value) == "File format was not recognized"
  {
    ghost var session;
    res, session := Decompress(Garbage, GarbageTrace, true);
  }

  /** `decompress` of a truncated stream fails without a cause. */
  method DecompressTruncated() returns (res: Result<seq<byte>, XZError>)
    ensures res == Err(InputExhausted) && Cause(res.error) == None
  {
    ghost var session;
    res, session := Decompress(HelloXz[..30], TruncatedTrace, true);
  }

  /** As written, the decoder of a failed call is never released. */
  method GarbageLeaksDecoder() returns (res: Result<seq<byte>, XZError>, ghost session: XzDec?)
    ensures res.Err? && session != null && !session.ended
  {
    res, session := Decompress(Garbage, GarbageTrace, true);
  }

  /** With the release on every path, the same call releases its decoder. */
  method GarbageReleasesDecoder() returns (res: Result<seq<byte>, XZError>, ghost session: XzDec?)
    ensures res.Err? && session != null && session.ended
  {
    res, session := DecompressReleasing(Garbage, GarbageTrace, true);
  }

  /**
   * The driver over the "hello" stream with a transfer buffer of any size
   * from one byte up returns "hello": a narrow buffer only takes more
   * passes.
   */
  method HelloThroughBuffer(width: nat) returns (res: Result<seq<byte>, XZError>)
    requires 0 < width
    ensures res == Ok(Hello)
  {
    DynallocAdmitsEveryTrace(HelloTrace);
    var dec := XzDec.Init(XzDynalloc, DICT_MAX, HelloTrace, true);
    var out := new byte[width](_ => 0);
    var buf := new XzBuf(HelloXz, out, width);
    res := RunLoop(dec, buf);
    HelloAtEveryWidth(width);
    dec.End();
  }

  lemma HelloAtEveryWidth(width: nat)
    requires 0 < width
    ensures DriveStep(Initial(HelloTrace), 0, |HelloXz|, width, []) == Ok(Hello)
  {
    DriveFollowsVerdict(Initial(HelloTrace), 0, |HelloXz|, width, []);
    assert [] + Owed(Initial(HelloTrace)) == Hello;
  }

  /** The "hello" stream through transfer buffers of 1, 2 and 4096 bytes. */
  lemma HelloAtWidths()
    ensures DriveStep(Initial(HelloTrace), 0, |HelloXz|, 1, []) == Ok(Hello)
    ensures DriveStep(Initial(HelloTrace), 0, |HelloXz|, 2, []) == Ok(Hello)
    ensures DriveStep(Initial(HelloTrace), 0, |HelloXz|, OUT_SIZE, []) == Ok(Hello)
  {
    HelloAtEveryWidth(1);
    HelloAtEveryWidth(2);
    HelloAtEveryWidth(OUT_SIZE);
  }

  /** A decoder that takes its last input byte with XZ_OK and would report the end on its next call. */
  const LateEndTrace: seq<Event> := [Event(3, [1, 2, 3], XzOk), Event(0, [], XzStreamEnd)]

  /**
   * The exhausted-input check looks at the input cursor only: a decoder that
   * has taken all its input and filled a one- or two-byte transfer buffer
   * returns XZ_OK because it needs more output space, and still has the end
   * of the stream to report, yet the driver fails.
   */
  lemma ExhaustionCheckIgnoresUnfinishedDecoder()
    ensures Decoded(LateEndTrace) == [1, 2, 3]
    ensures |Step(Initial(LateEndTrace), 3, 1).written| == 1 && |Step(Initial(LateEndTrace), 3, 2).written| == 2
    ensures DriveStep(Initial(LateEndTrace), 0, 3, 1, []) == Err(InputExhausted)
    ensures DriveStep(Initial(LateEndTrace), 0, 3, 2, []) == Err(InputExhausted)
  {
    DriveFollowsVerdict(Initial(LateEndTrace), 0, 3, 1, []);
    DriveFollowsVerdict(Initial(LateEndTrace), 0, 3, 2, []);
  }
}
