/**
 * The plain data of the xz-embedded bindings: return codes, operation modes,
 * the raw error wrapper with its fixed descriptions, and the in/out window
 * `xz_buf` that is handed to the decoder on every step.
 */
module XzSys {

  newtype byte = b: int | 0 <= b < 256

  /** The nine outcomes of one decoder step (`xz_ret`). */
  datatype XzRet =
    | XzOk
    | XzStreamEnd
    | XzUnsupportedCheck
    | XzMemError
    | XzMemlimitError
    | XzFormatError
    | XzOptionsError
    | XzDataError
    | XzBufError

  /** Operation modes (`xz_mode`). */
  datatype XzMode = XzSingle | XzPrealloc | XzDynalloc

  predicate IsMultiCall(m: XzMode) {
    m == XzPrealloc || m == XzDynalloc
  }

  /**
   * The codes the documentation allows a decoder in mode `m` to return:
   * XZ_OK and XZ_MEMLIMIT_ERROR only in the multi-call modes, XZ_MEM_ERROR
   * only when the dictionary is allocated dynamically.
   */
  predicate MayReturn(m: XzMode, r: XzRet): (b: bool)
    // every mode may finish the stream or reject it
    ensures r == XzStreamEnd || r == XzFormatError ==> b
    // a mode that may return XZ_MEM_ERROR is a multi-call mode
    ensures r == XzMemError && b ==> IsMultiCall(m)
  {
    match r
    case XzOk => IsMultiCall(m)
    case XzMemError => m == XzDynalloc
    case XzMemlimitError => IsMultiCall(m)
    case _ => true
  }

  /** XZ_DYNALLOC, the mode the driver selects, is the one mode that admits every code. */
  lemma OnlyDynallocAdmitsEveryCode(m: XzMode)
    ensures (forall r :: MayReturn(m, r)) <==> m == XzDynalloc
  {
    if m != XzDynalloc {
      assert !MayReturn(m, XzMemError);
    }
  }

  /** Single-call mode never asks to be called again and never allocates while running. */
  lemma SingleCallCodes(r: XzRet)
    requires MayReturn(XzSingle, r)
    ensures r != XzOk && r != XzMemError && r != XzMemlimitError
  {
  }

  /** `XZRawError`: a raw return code carried as an error cause. */
  datatype XzRawError = XzRawError(code: XzRet)

  /** `From<xz_ret> for XZRawError`: wraps the code unchanged. */
  function FromRet(e: XzRet): (r: XzRawError)
    ensures r.code == e
  {
    XzRawError(e)
  }

  /** Wrapping is lossless: the code can always be read back, and distinct codes stay distinct. */
  lemma FromRetInjective(a: XzRet, b: XzRet)
    ensures FromRet(a) == FromRet(b) <==> a == b
  {
  }

  /** The fixed human-readable summary of each raw code. */
  function Description(e: XzRawError): (msg: string)
    ensures msg != []
  {
    match e.code
    case XzOk => "Everything is OK so far"
    case XzStreamEnd => "Operation finished successfully"
    case XzUnsupportedCheck => "Integrity check type is not supported"
    case XzMemError => "Allocating memory failed"
    case XzMemlimitError => "A bigger LZMA2 dictionary is needed than allowed by dict_max"
    case XzFormatError => "File format was not recognized"
    case XzOptionsError => "This implementation doesn't support the requested compression options"
    case XzDataError => "Compressed data is corrupt"
    case XzBufError => "Cannot make any progress"
  }

  /** Every code has its own message: the description identifies the code. */
  lemma DescriptionsDistinct(a: XzRawError, b: XzRawError)
    ensures Description(a) == Description(b) <==> a == b
  {
  }

  /**
   * `xz_buf`: the input window (`input[..inSize]` read from `inPos`) and the
   * output window (`out[..outSize]` written from `outPos`). The caller and
   * the decoder both update the cursors in place.
   */
  class XzBuf {
    const input: seq<byte>
    var inPos: nat
    var inSize: nat
    const out: array<byte>
    var outPos: nat
    var outSize: nat

    /** The documented cursor bounds: neither cursor passes the size of its window. */
    ghost predicate Valid()
      reads this
    {
      inPos <= inSize <= |input| && outPos <= outSize <= out.Length
    }

    /** A fresh window over the whole input and the first `outSize` cells of `out`. */
    constructor (input: seq<byte>, out: array<byte>, outSize: nat)
      requires outSize <= out.Length
      ensures Valid()
      ensures this.input == input && inPos == 0 && inSize == |input|
      ensures this.out == out && outPos == 0 && this.outSize == outSize
    {
      this.input := input;
      this.out := out;
      inPos, inSize := 0, |input|;
      outPos, this.outSize := 0, outSize;
    }
  }
}
