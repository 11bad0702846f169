/**
 * The choice of rate-control method and of the keyframe interval in
 * encqsvInit (libhb/enc_qsv.c), on integers: constant QP when a quality is
 * set, otherwise one of the bitrate methods (look-ahead, CBR, VBR, AVBR)
 * when a bitrate is set, otherwise the "invalid rate control" error.
 */
module RateControl {
  import opened Wrappers
  import opened QsvCommon

  const MFX_TARGETUSAGE_2 := 2

  /** The settings encqsvInit writes for each method. */
  datatype Settings =
    | Cqp(qpi: int, qpp: int, qpb: int)
    | LookAhead(targetKbps: int)
    | Cbr(targetKbps: int, maxKbps: int, bufferSizeInKB: int)
    | Vbr(targetKbps: int, maxKbps: int, bufferSizeInKB: int)
    | Avbr(targetKbps: int)

  /** The rate-control fields of `pv->param.rc` and the job that take part in the choice. */
  datatype Request = Request(
    vquality: int, vbitrate: int,
    cqpOffsets: seq<int>,
    lookahead: int, vbvMaxBitrate: int, vbvBufferSize: int,
    targetUsage: int)

  /**
   * Whether look-ahead rate control is used: never without the
   * capability; when left automatic (negative), not with a VBV maximum
   * (look-ahead ignores VBV) and otherwise for target usages 1 and 2; when
   * set, as set.
   */
  function UseLookAhead(lookaheadCap: bool, lookahead: int, vbvMaxBitrate: int, targetUsage: int): (on: bool)
    ensures on ==> lookaheadCap
    ensures lookaheadCap && lookahead >= 0 ==> (on <==> lookahead != 0)
    ensures lookahead < 0 && vbvMaxBitrate > 0 ==> !on
    ensures lookaheadCap && lookahead < 0 && vbvMaxBitrate <= 0 ==> (on <==> targetUsage <= MFX_TARGETUSAGE_2)
  {
    if !lookaheadCap then false
    else if lookahead < 0 then (if vbvMaxBitrate > 0 then false else targetUsage <= MFX_TARGETUSAGE_2)
    else lookahead != 0
  }

  /**
   * A value stored in one of the `mfxU16` fields TargetKbps, MaxKbps and
   * BufferSizeInKB: its low 16 bits.
   */
  function U16(x: int): (u: nat)
    ensures u < 0x1_0000
    ensures 0 <= x < 0x1_0000 ==> u == x
  {
    x % 0x1_0000
  }

  /** BufferSizeInKB: the VBV buffer size in kilobytes, 0 (chosen by Media SDK) when it is not positive. */
  function BufferSizeInKB(vbvBufferSize: int): (kb: int)
    ensures kb >= 0
    ensures vbvBufferSize > 0 ==> kb * 8 <= vbvBufferSize < kb * 8 + 8
  {
    if vbvBufferSize <= 0 then 0 else vbvBufferSize / 8
  }

  /** The constant QP of one frame type: quality plus its offset, clamped to 0 .. 51. */
  function Qp(vquality: int, offset: int): (qp: int)
    ensures 0 <= qp <= 51
    ensures 0 <= vquality + offset <= 51 ==> qp == vquality + offset
  {
    Clip3(0, 51, vquality + offset)
  }

  /** The selection of encqsvInit; the kilobit and kilobyte values are stored in 16-bit fields. */
  function Select(r: Request, lookaheadCap: bool): (s: Result<Settings, string>)
    requires |r.cqpOffsets| == 3
  {
    if r.vquality >= 0 then
      Success(Cqp(Qp(r.vquality, r.cqpOffsets[0]), Qp(r.vquality, r.cqpOffsets[1]), Qp(r.vquality, r.cqpOffsets[2])))
    else if r.vbitrate > 0 then
      if UseLookAhead(lookaheadCap, r.lookahead, r.vbvMaxBitrate, r.targetUsage) then Success(LookAhead(U16(r.vbitrate)))
      else if r.vbitrate == r.vbvMaxBitrate then
        Success(Cbr(U16(r.vbitrate), U16(r.vbitrate), U16(BufferSizeInKB(r.vbvBufferSize))))
      else if r.vbvMaxBitrate > 0 then
        Success(Vbr(U16(r.vbitrate), U16(r.vbvMaxBitrate), U16(BufferSizeInKB(r.vbvBufferSize))))
      else Success(Avbr(U16(r.vbitrate)))
    else Failure("invalid rate control")
  }

  /**
   * Which method each request gets: the cases are exhaustive and
   * exclusive, and each is characterised by the request alone.
   */
  lemma SelectCases(r: Request, lookaheadCap: bool)
    requires |r.cqpOffsets| == 3
    ensures Select(r, lookaheadCap).Failure? <==> r.vquality < 0 && r.vbitrate <= 0
    ensures Select(r, lookaheadCap).Success? && Select(r, lookaheadCap).value.Cqp? <==> r.vquality >= 0
    ensures Select(r, lookaheadCap).Success? && Select(r, lookaheadCap).value.LookAhead? <==>
      r.vquality < 0 && r.vbitrate > 0 && UseLookAhead(lookaheadCap, r.lookahead, r.vbvMaxBitrate, r.targetUsage)
    ensures Select(r, lookaheadCap).Success? && Select(r, lookaheadCap).value.Cbr? <==>
      r.vquality < 0 && r.vbitrate > 0 && !UseLookAhead(lookaheadCap, r.lookahead, r.vbvMaxBitrate, r.targetUsage)
      && r.vbitrate == r.vbvMaxBitrate
    ensures Select(r, lookaheadCap).Success? && Select(r, lookaheadCap).value.Vbr? <==>
      r.vquality < 0 && r.vbitrate > 0 && !UseLookAhead(lookaheadCap, r.lookahead, r.vbvMaxBitrate, r.targetUsage)
      && r.vbitrate != r.vbvMaxBitrate && r.vbvMaxBitrate > 0
    ensures Select(r, lookaheadCap).Success? && Select(r, lookaheadCap).value.Avbr? <==>
      r.vquality < 0 && r.vbitrate > 0 && !UseLookAhead(lookaheadCap, r.lookahead, r.vbvMaxBitrate, r.targetUsage)
      && r.vbitrate != r.vbvMaxBitrate && r.vbvMaxBitrate <= 0
  {
  }

  /**
   * The settings agree with the request: every QP lies in 0 .. 51, every
   * bitrate method targets the job's bitrate, CBR caps at that same
   * bitrate, VBR at the VBV maximum, which is then above 0, each as the
   * 16-bit field holds it; the buffer is the VBV size in kilobytes.
   */
  lemma SelectSettings(r: Request, lookaheadCap: bool)
    requires |r.cqpOffsets| == 3
    ensures match Select(r, lookaheadCap)
      case Failure(_) => true
      case Success(Cqp(i, p, b)) => 0 <= i <= 51 && 0 <= p <= 51 && 0 <= b <= 51
      case Success(LookAhead(t)) => r.vbitrate > 0 && t == U16(r.vbitrate)
      case Success(Cbr(t, m, kb)) =>
        r.vbitrate > 0 && t == m == U16(r.vbitrate) && kb == U16(BufferSizeInKB(r.vbvBufferSize))
      case Success(Vbr(t, m, kb)) =>
        r.vbitrate > 0 && r.vbvMaxBitrate > 0 && t == U16(r.vbitrate) && m == U16(r.vbvMaxBitrate)
        && kb == U16(BufferSizeInKB(r.vbvBufferSize))
      case Success(Avbr(t)) => r.vbitrate > 0 && t == U16(r.vbitrate)
  {
  }

  /**
   * Below 65536 kbit/s and 65536 KB the fields hold the request exactly; a
   * bitrate of 65536 kbit/s or more wraps (70000 becomes 4464).
   */
  lemma SelectBitratesExact(r: Request, lookaheadCap: bool)
    requires |r.cqpOffsets| == 3
    ensures r.vbitrate < 0x1_0000 && r.vbvMaxBitrate < 0x1_0000 && r.vbvBufferSize < 0x8_0000 ==>
      match Select(r, lookaheadCap)
      case Success(LookAhead(t)) => t == r.vbitrate
      case Success(Cbr(t, m, kb)) => t == m == r.vbitrate && kb == BufferSizeInKB(r.vbvBufferSize)
      case Success(Vbr(t, m, kb)) => t == r.vbitrate && m == r.vbvMaxBitrate && kb == BufferSizeInKB(r.vbvBufferSize)
      case Success(Avbr(t)) => t == r.vbitrate
      case _ => true
    ensures r.vquality < 0 && r.vbitrate == 70000 && r.vbvMaxBitrate <= 0
      && !UseLookAhead(lookaheadCap, r.lookahead, r.vbvMaxBitrate, r.targetUsage)
      ==> Select(r, lookaheadCap) == Success(Avbr(4464))
  {
  }

  /**
   * GopPicSize: the configured keyframe interval, or when none is set (it
   * is negative) 32 for constant QP and otherwise five seconds of frames
   * plus one, `rate` being the frame rate rounded to an integer.
   */
  function KeyframeInterval(gopPicSize: int, cqp: bool, rate: int): (n: int)
    ensures gopPicSize >= 0 ==> n == gopPicSize
    ensures gopPicSize < 0 && rate >= 0 ==> n >= 1
    ensures gopPicSize < 0 && cqp ==> n == 32
    ensures gopPicSize < 0 && !cqp ==> n == 5 * rate + 1 && n % 5 == 1
  {
    if gopPicSize >= 0 then gopPicSize else if cqp then 32 else 5 * rate + 1
  }

  /**
   * With no interval configured, the interval follows from the request:
   * 32 exactly for a constant-QP request (no frame rate gives 32 to the
   * bitrate methods), otherwise one frame more than five seconds at the
   * rounded frame rate.
   */
  lemma KeyframeIntervalOfRequest(r: Request, lookaheadCap: bool, gopPicSize: int, rate: int)
    requires |r.cqpOffsets| == 3 && Select(r, lookaheadCap).Success? && gopPicSize < 0
    ensures var n := KeyframeInterval(gopPicSize, Select(r, lookaheadCap).value.Cqp?, rate);
      && (r.vquality >= 0 <==> n == 32)
      && (r.vquality < 0 && rate > 0 ==> (n - 1) / rate == 5 && (n - 1) % rate == 0)
  {
  }
}
