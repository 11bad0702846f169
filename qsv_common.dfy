/**
 * libhb/qsv_common.h: the HB_QSV_CLIP3 clamp, the Quick Sync capability
 * bits and the status codes of the Media SDK parameter parser.
 */
module QsvCommon {

  /** HB_QSV_CLIP3(min, max, val): `min` below the range, `max` above it, `val` otherwise. */
  function Clip3(lo: int, hi: int, val: int): int
  {
    if val < lo then lo else if val > hi then hi else val
  }

  /** A clamp with ordered bounds always lands inside them. */
  lemma Clip3InRange(lo: int, hi: int, val: int)
    requires lo <= hi
    ensures lo <= Clip3(lo, hi, val) <= hi
  {
  }

  /** A value already inside the bounds passes through unchanged. */
  lemma Clip3Identity(lo: int, hi: int, val: int)
    requires lo <= val <= hi
    ensures Clip3(lo, hi, val) == val
  {
  }

  /**
   * Clamping twice with the same ordered bounds is clamping once. With
   * crossed bounds it is not: a value below `lo` becomes `lo`, which lies
   * above `hi` and is clamped again to `hi`.
   */
  lemma Clip3Idempotent(lo: int, hi: int, val: int)
    ensures lo <= hi ==> Clip3(lo, hi, Clip3(lo, hi, val)) == Clip3(lo, hi, val)
    ensures hi < lo && val < lo ==> Clip3(lo, hi, Clip3(lo, hi, val)) == hi != Clip3(lo, hi, val)
  {
  }

  /** The `capabilities` word of hb_qsv_info_t. */
  type Capabilities = bv32

  const CAP_H264_BPYRAMID: Capabilities := 0x1
  const CAP_BITSTREAM_DTS: Capabilities := 0x2
  const CAP_OPTION2_BRC: Capabilities := 0x4
  const CAP_OPTION2_LOOKAHEAD: Capabilities := 0x8

  /** The four capability flags the header defines. */
  datatype Cap = H264BPyramid | BitstreamDts | Option2Brc | Option2Lookahead

  function CapBit(c: Cap): Capabilities
  {
    match c
    case H264BPyramid => CAP_H264_BPYRAMID
    case BitstreamDts => CAP_BITSTREAM_DTS
    case Option2Brc => CAP_OPTION2_BRC
    case Option2Lookahead => CAP_OPTION2_LOOKAHEAD
  }

  /** `capabilities & flag` as the C code tests it. */
  predicate HasCap(caps: Capabilities, flag: Capabilities)
  {
    caps & flag != 0
  }

  /** A word with exactly one bit set. */
  predicate SingleBit(f: Capabilities)
  {
    f != 0 && f & (f - 1) == 0
  }

  /** The flags are single bits, pairwise distinct, with no bit in common. */
  lemma CapabilityFlagsDistinct(a: Cap, b: Cap)
    requires a != b
    ensures SingleBit(CapBit(a))
    ensures CapBit(a) != CapBit(b)
    ensures CapBit(a) & CapBit(b) == 0
  {
    match a
    case H264BPyramid =>
    case BitstreamDts =>
    case Option2Brc =>
    case Option2Lookahead =>
  }

  /**
   * Setting a mask that shares no bit with `f` never changes the answer of
   * the `&` test for `f`; by CapabilityFlagsDistinct this holds for any two
   * different flags.
   */
  lemma SetOtherFlagIndependent(caps: Capabilities, f: Capabilities, g: Capabilities)
    requires f & g == 0
    ensures HasCap(caps | g, f) == HasCap(caps, f)
  {
    assert (caps | g) & f == caps & f;
  }

  /** Clearing a mask that shares no bit with `f` never changes the `&` test for `f`. */
  lemma ClearOtherFlagIndependent(caps: Capabilities, f: Capabilities, g: Capabilities)
    requires f & g == 0
    ensures HasCap(caps & !g, f) == HasCap(caps, f)
  {
    assert (caps & !g) & f == caps & f;
  }

  /** A word with a nonzero mask set passes the `&` test for it: every flag is nonzero. */
  lemma SetFlagDetected(caps: Capabilities, f: Capabilities)
    requires f != 0
    ensures HasCap(caps | f, f)
  {
    assert (caps | f) & f == f;
  }

  /** The anonymous enum of hb_qsv_param_parse results. */
  datatype ParamStatus = ParamOk | ParamError | ParamBadName | ParamBadValue | ParamUnsupported

  /** The C value of each enumerator: consecutive from HB_QSV_PARAM_OK = 0. */
  function ParamStatusCode(s: ParamStatus): (c: int)
    ensures 0 <= c <= 4
    ensures c == 0 <==> s == ParamOk
  {
    match s
    case ParamOk => 0
    case ParamError => 1
    case ParamBadName => 2
    case ParamBadValue => 3
    case ParamUnsupported => 4
  }

  /**
   * The switch in encqsvInit over a returned code: codes of the enum name their
   * enumerator, any other code falls to the `HB_QSV_PARAM_ERROR`/default arm.
   */
  function ParamStatusOfCode(c: int): (s: ParamStatus)
    ensures 0 <= c <= 4 ==> ParamStatusCode(s) == c
    ensures (c < 0 || c > 4) ==> s == ParamError
  {
    if c == 0 then ParamOk
    else if c == 2 then ParamBadName
    else if c == 3 then ParamBadValue
    else if c == 4 then ParamUnsupported
    else ParamError
  }

  /** The codes are pairwise distinct: reading a code back gives its enumerator. */
  lemma ParamStatusCodesDistinct(s: ParamStatus, t: ParamStatus)
    ensures ParamStatusOfCode(ParamStatusCode(s)) == s
    ensures s != t ==> ParamStatusCode(s) != ParamStatusCode(t)
  {
    match s
    case ParamOk =>
    case ParamError =>
    case ParamBadName =>
    case ParamBadValue =>
    case ParamUnsupported =>
  }
}
