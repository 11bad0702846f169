/**
 * Setup decisions of libhb/enc_qsv.c that do not depend on the encode in
 * progress: the sizes of the task, surface and sync-point pools
 * (qsv_enc_init), the SPS/PPS prefix strip (encqsvInit) and the mapping of
 * Media SDK frame types onto HandBrake's (encqsvWork).
 */
module EncoderSetup {
  import opened NalReframer
  import opened StreamFormats

  /**
   * `surface_num` of qsv_enc_init with system-memory input: the encoder's
   * suggestion plus the job's async depth, at most AV_QSV_SURFACE_NUM, and
   * AV_QSV_SURFACE_NUM again when that leaves no surface.
   * AV_QSV_SURFACE_NUM comes from a header that is not part of this model.
   */
  function SurfaceCount(numFrameSuggested: nat, qsvAsyncDepth: int, surfaceMax: int): (n: int)
    ensures surfaceMax >= 1 ==> 1 <= n <= surfaceMax
    ensures 0 < numFrameSuggested + qsvAsyncDepth <= surfaceMax ==> n == numFrameSuggested + qsvAsyncDepth
    ensures numFrameSuggested + qsvAsyncDepth <= 0 ==> n == surfaceMax
  {
    var n := if numFrameSuggested + qsvAsyncDepth < surfaceMax then numFrameSuggested + qsvAsyncDepth else surfaceMax;
    if n <= 0 then surfaceMax else n
  }

  /**
   * `sync_num` of qsv_enc_init: at most AV_QSV_SYNC_NUM and at most the
   * surface count when there are system-memory surfaces (`surfaceNum` is 0
   * with opaque surfaces, and then AV_QSV_SYNC_NUM sync points are made).
   */
  function SyncCount(surfaceNum: int, syncMax: int): (n: int)
    ensures n <= syncMax
    ensures surfaceNum != 0 ==> n <= surfaceNum
    ensures surfaceNum == 0 ==> n == syncMax
    ensures surfaceNum != 0 ==> n == surfaceNum || n == syncMax
  {
    if surfaceNum != 0 then (if surfaceNum < syncMax then surfaceNum else syncMax) else syncMax
  }

  /** With system-memory surfaces and positive pool bounds, there is at least one sync point and never more than surfaces. */
  lemma SyncPoolWithinSurfacePool(numFrameSuggested: nat, qsvAsyncDepth: int, surfaceMax: int, syncMax: int)
    requires surfaceMax >= 1 && syncMax >= 1
    ensures var surfaces := SurfaceCount(numFrameSuggested, qsvAsyncDepth, surfaceMax);
      1 <= SyncCount(surfaces, syncMax) <= surfaces <= surfaceMax
  {
  }

  /** Media SDK's frame type bits (mfxstructures.h, not part of this model). */
  const MFX_FRAMETYPE_I: bv16 := 0x0001
  const MFX_FRAMETYPE_P: bv16 := 0x0002
  const MFX_FRAMETYPE_B: bv16 := 0x0004
  const MFX_FRAMETYPE_REF: bv16 := 0x0040
  const MFX_FRAMETYPE_IDR: bv16 := 0x0080

  /** HandBrake's frame types; Unset is the 0 hb_video_buffer_init leaves. */
  datatype FrameType = Unset | Idr | Intra | Predicted | Bidirectional

  /** The frame type and reference flag encqsvWork gives an output buffer. */
  datatype Marking = Marking(frameType: FrameType, reference: bool)

  predicate HasBit(bits: bv16, flag: bv16)
  {
    bits & flag != 0
  }

  /**
   * The mapping of encqsvWork: IDR wins over I, I over P, P over B; the
   * reference flag is set from its own bit.
   */
  function MapFrameType(bits: bv16): (m: Marking)
    ensures m.frameType == Idr <==> HasBit(bits, MFX_FRAMETYPE_IDR)
    ensures m.frameType == Intra <==> !HasBit(bits, MFX_FRAMETYPE_IDR) && HasBit(bits, MFX_FRAMETYPE_I)
    ensures m.frameType == Predicted <==>
      !HasBit(bits, MFX_FRAMETYPE_IDR) && !HasBit(bits, MFX_FRAMETYPE_I) && HasBit(bits, MFX_FRAMETYPE_P)
    ensures m.frameType == Bidirectional <==>
      !HasBit(bits, MFX_FRAMETYPE_IDR) && !HasBit(bits, MFX_FRAMETYPE_I) && !HasBit(bits, MFX_FRAMETYPE_P)
      && HasBit(bits, MFX_FRAMETYPE_B)
    ensures m.reference <==> HasBit(bits, MFX_FRAMETYPE_REF)
  {
    var t :=
      if HasBit(bits, MFX_FRAMETYPE_IDR) then Idr
      else if HasBit(bits, MFX_FRAMETYPE_I) then Intra
      else if HasBit(bits, MFX_FRAMETYPE_P) then Predicted
      else if HasBit(bits, MFX_FRAMETYPE_B) then Bidirectional
      else Unset;
    Marking(t, HasBit(bits, MFX_FRAMETYPE_REF))
  }

  /** The Media SDK bits that describe a marking, as the encoder reports an IDR frame (IDR together with I). */
  function Bits(m: Marking): bv16
  {
    var t: bv16 := match m.frameType
      case Unset => 0
      case Idr => MFX_FRAMETYPE_IDR | MFX_FRAMETYPE_I
      case Intra => MFX_FRAMETYPE_I
      case Predicted => MFX_FRAMETYPE_P
      case Bidirectional => MFX_FRAMETYPE_B;
    if m.reference then t | MFX_FRAMETYPE_REF else t
  }

  /** The mapping recovers every marking from its bits. */
  lemma MapFrameTypeInverts(m: Marking)
    ensures MapFrameType(Bits(m)) == m
  {
  }

  /** Other bits (the Media SDK's xI/xP/xB field flags) do not change the mapping. */
  lemma MapFrameTypeIgnoresOtherBits(bits: bv16, other: bv16)
    requires other & (MFX_FRAMETYPE_I | MFX_FRAMETYPE_P | MFX_FRAMETYPE_B | MFX_FRAMETYPE_REF | MFX_FRAMETYPE_IDR) == 0
    ensures MapFrameType(bits | other) == MapFrameType(bits)
  {
  }

  /**
   * The removal of the 4-byte start code `00 00 00 01` from the SPS (or
   * PPS) buffer that GetVideoParam filled with `bufSize` bytes: the new
   * length is bufSize - 4 and the bytes move four places to the front, as
   * memmove does.
   */
  method StripStartCode(buf: array<Byte>, bufSize: nat) returns (length: nat)
    requires 4 <= bufSize <= buf.Length
    modifies buf
    ensures length == bufSize - 4
    ensures buf[..length] == old(buf[4..bufSize])
    ensures buf[length..] == old(buf[length..])
  {
    length := bufSize - 4;
    var i := 0;
    while i < length
      invariant 0 <= i <= length
      invariant forall k :: 0 <= k < i ==> buf[k] == old(buf[k + 4])
      invariant forall k :: i <= k < buf.Length ==> buf[k] == old(buf[k])
    {
      buf[i] := buf[i + 4];
      i := i + 1;
    }
  }

  /** Stripping a buffer that holds one NAL unit behind a 4-byte start code leaves exactly that NAL unit. */
  lemma StripRecoversNal(nal: seq<Byte>)
    ensures Assemble([Unit(true, nal)])[4..] == nal
    ensures |Assemble([Unit(true, nal)])| == |nal| + 4
  {
    assert Assemble([Unit(true, nal)]) == StartCode(true) + nal + Assemble([]);
  }
}
