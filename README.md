# HandBrake Quick Sync encoder core and interop job conversion, in Dafny

This project models the core of two parts of HandBrake and proves properties of the model.

**The Quick Sync H.264 encoder work object (`libhb/enc_qsv.c`).** Its parts are:

- The NAL reframer (`nal_find_start_code`, `parse_nalus`). It turns the Annex B bitstream that Media SDK produces into length-prefixed NAL units.
- The DTS engine (`list_dts`, `init_pts`, `bfrm_delay`, `init_delay`). It generates decode timestamps when the encoder cannot be trusted to give them.
- The task ring of `qsv_enc_init` and `encqsvWork`. Encode tasks are submitted at `async_depth` and drained from the head.
- The chapter carrier. It holds one pending chapter mark, which goes to the first IDR frame at or after the mark.
- Setup decisions:
  - pool sizes;
  - profile and level names and parsing;
  - rate-control and GOP selection;
  - the SPS/PPS start-code strip;
  - the frame-type mapping.
- The encoder object itself (`hb_work_private_t`). It is a class whose methods follow `encqsvInit` and the input, submit, drain and flush parts of `encqsvWork`.

**Shared definitions (`libhb/qsv_common.h`).** These are `HB_QSV_CLIP3`, the capability bits and the parameter-parser status codes.

**The Windows interop layer.** This covers two parts:

- `GetOutputTracks` and `GetTitle` of `HandBrakeInstance.cs`. They pair audio encodings with the 1-based chosen tracks that exist in the title.
- Both `GetEncodeJob` overloads of `InteropModelCreator.cs`. They cover:
  - audio encodings and chosen tracks;
  - the point-to-point range;
  - defaults for null fields;
  - the `Deblock > 4` rule;
  - the x264/x265 preset, tune, profile and level;
  - the SRT/source subtitle partition.

## Modules

- Pure logic is written as datatypes, functions and lemmas:
  - `QsvCommon`, `Profiles` and `RateControl`;
  - `StreamFormats`, which holds the Annex B and length-prefixed formats and the reframer's round trip;
  - `DtsReorder` (pure history), `ChapterCarrier` and `EncoderSetup`;
  - `OutputTracks` and `InteropModel`.
- State the C code changes in place is written as classes:
  - `NalReframer.OutBuffer`, the output buffer `parse_nalus` appends to;
  - `DtsReorder.DtsList`, the `list_dts` FIFO;
  - `TaskRing.Ring`, the task list and its stages;
  - `QsvEncoder.Encoder`, the work object.
- Every method states its results and its new state in terms of its inputs and the old state. The larger ones do so by an equation with a pure function that describes the same step. The exceptions are listed under "## Left out" (the task order and stages after the end-of-stream loop). Examples:
  - `ParseNalus` appends `Reframe(s)`;
  - `Emit` gives the frame and state of `EmitStep`;
  - `Ring.Submit` and `Ring.Drain` change the ring as `SubmitStep` and `DrainOnce`;
  - `Work` gives the state, status, IDR request and output of `WorkStep`;
  - `Flush` drains the tasks as `DrainFirst` and stops where `FlushDrains` says;
  - `GetEncodeJob` returns `EncodeJobOf(task)`;
  - `GetOutputTracks` returns `Outputs(...)`.

  The properties the source promises are proved as lemmas about those functions, for example `WorkStepFacts` for `WorkStep` and `DrainFromOutputs` for `DrainFirst`.

## Where the model follows the code rather than the description of the system

- **The chapter slot holds one mark.** A second marker that arrives while one is pending is dropped: the code only logs it.
- **The ring recycles only when something was produced.** A drained task whose bitstream is empty is neither rotated to the back of the task list nor has its stage cleared. `TaskRing.ZeroLengthDrainBreaksFifo` runs a ring of depth 2 with two stages in flight. The first drain has no data. The next submission then goes into the task that still holds the second stage, and the drain after it returns the first stage again.
- **The sync-point pool is never larger than the surface pool.** `sync_num` is at most `surface_num` when system-memory surfaces exist.
- **`init_delay` is set from the first negative DTS.** This happens only when `bfrm_delay` is nonzero, whichever way the DTS was obtained.
- **Errors end the call.** A Media SDK error other than `MFX_ERR_MORE_DATA` ends `encqsvWork` with an error (the `AV_QSV_CHECK_RESULT` path).
- **A DTS after the PTS on the first frame gives the largest delay.** The B-frame delay correction divides in unsigned 64-bit arithmetic, because the PTS field is unsigned. A negative gap wraps to a huge quotient, whose low 32 bits are then clamped. At 3600 ticks a frame, a DTS one frame after the PTS gives `BFRM_DELAY_MAX`, not 1 (`DtsReorder.LateDtsWrapsToMaxDelay`).
- **The length prefix wraps past 16 MiB.** `parse_nalus` writes `00` followed by the low 24 bits of the size. A NAL unit of 16 MiB or more is therefore written with a wrong prefix. `NalReframer.PrefixWrongAt16MiB` and `StreamFormats.FrameLosesHugeNal` state this.
- **A title's audio tracks are numbered in two different ways.**
  - For `GetEncodeJob`, `InputNumber` is the 1-based source track.
  - For `GetOutputTracks`, it is a 1-based position in `ChosenAudioTracks`.
  - The two agree when the audio tracks are 1, 2, …, n in order (`InteropModel.ConsecutiveTracksKeepTheirEncodings`).
  - An encoding for source track 2 alone produces no output track (`InteropModel.SecondTrackAloneGetsNoOutput`).

## Model

| member | source | states |
|---|---|---|
| QsvCommon.Clip3 | libhb/qsv_common.h:111 | `HB_QSV_CLIP3`; what it guarantees is stated by the three lemmas below |
| QsvCommon.Clip3InRange | libhb/qsv_common.h:111 | with ordered bounds the clamp lands inside them |
| QsvCommon.Clip3Identity | libhb/qsv_common.h:111 | a value inside the bounds passes through unchanged |
| QsvCommon.Clip3Idempotent | libhb/qsv_common.h:111 | clamping twice equals clamping once for ordered bounds; with crossed bounds it does not |
| QsvCommon.CapabilityFlagsDistinct | libhb/qsv_common.h:33-36 | each capability flag is a single bit; two different flags are different and share no bit |
| QsvCommon.SetOtherFlagIndependent | libhb/qsv_common.h:33-36 | setting a disjoint mask leaves the `&` test of a flag unchanged |
| QsvCommon.ClearOtherFlagIndependent | libhb/qsv_common.h:33-36 | clearing a disjoint mask leaves the `&` test of a flag unchanged |
| QsvCommon.SetFlagDetected | libhb/qsv_common.h:33-36 | a word with a flag set passes the test for that flag |
| QsvCommon.ParamStatusCode | libhb/qsv_common.h:71-78 | the codes run from 0 to 4, and 0 is exactly HB_QSV_PARAM_OK |
| QsvCommon.ParamStatusOfCode | libhb/qsv_common.h:71-78 | a code in 0..4 names its enumerator; any other code reads as the generic error |
| QsvCommon.ParamStatusCodesDistinct | libhb/qsv_common.h:71-78 | the codes are pairwise distinct and read back to their enumerator |
| Profiles.ProfileOfCode | libhb/enc_qsv.c:116-138 | the case chosen for a known profile is the one whose value matches |
| Profiles.ProfileXlat | libhb/enc_qsv.c:116-138 | the name of a profile value, or none; `ProfileOfCode` and `ProfileXlatExact` state which |
| Profiles.ProfileXlatExact | libhb/enc_qsv.c:116-138 | each known profile is named after its own value; a value gets a name if and only if some profile has it |
| Profiles.ProfilesDistinct | libhb/enc_qsv.c:116-138 | different profiles have different values and different names |
| Profiles.ParseProfile | libhb/enc_qsv.c:513-534 | NULL, empty or "auto" keep the default, and only they do; any profile chosen is Baseline, Main or High |
| Profiles.ParseProfileChoice | libhb/enc_qsv.c:513-534 | "baseline", "main" and "high", in any letter case, select 66, 77 and 100, each as an if-and-only-if; every other string that is not auto fails with "bad profile" |
| Profiles.ProfileNameRoundTrip | libhb/enc_qsv.c:116-138 | the printed names of Baseline, Main and High read back as the same profile; the other names are refused |
| Profiles.LevelXlat | libhb/enc_qsv.c:140-151 | the result is the first level name whose value matches, or NULL when no value matches |
| Profiles.SelectLevel | libhb/enc_qsv.c:535-558 | fails if and only if the index is invalid; otherwise the level lies in 1..5.2 (1..5.1 before API 1.6) and is the table value when that value is in range |
| RateControl.UseLookAhead | libhb/enc_qsv.c:570-597 | look-ahead needs the capability; when set explicitly it is used as set; when left automatic it is off with a VBV maximum, and otherwise on exactly when the target usage is at most 2 |
| RateControl.BufferSizeInKB | libhb/enc_qsv.c:614-620 | the result is the VBV buffer size in whole kilobytes, or 0 when no size is set |
| RateControl.Qp | libhb/enc_qsv.c:565-568 | the QP lies in 0..51 and equals quality plus offset whenever that sum is in range |
| RateControl.U16 | libhb/enc_qsv.c:602-659 | a value stored in an `mfxU16` field: below 2^16, and unchanged when it fits |
| RateControl.Select | libhb/enc_qsv.c:561-670 | the rate-control choice of encqsvInit; stated by `SelectCases`, `SelectSettings` and `SelectBitratesExact` |
| RateControl.SelectCases | libhb/enc_qsv.c:561-670 | the method chosen (CQP, LA, CBR, VBR, AVBR or the error) is characterised exactly by the request |
| RateControl.SelectSettings | libhb/enc_qsv.c:561-670 | every QP is in 0..51; bitrate methods need a positive bitrate and set `TargetKbps` to it truncated to 16 bits; CBR sets `MaxKbps` to the same and VBR to the VBV maximum; `BufferSizeInKB` is the truncated VBV size in kilobytes |
| RateControl.SelectBitratesExact | libhb/enc_qsv.c:602-659 | bitrates below 2^16 reach the fields unchanged; a 70000 kbit/s request is stored as 4464 |
| RateControl.KeyframeInterval | libhb/enc_qsv.c:671-686 | a configured interval is kept; otherwise 32 for CQP and `5 * rate + 1` for the other methods, positive for a non-negative rate |
| RateControl.KeyframeIntervalOfRequest | libhb/enc_qsv.c:671-686 | with no interval configured, it is 32 exactly when the request selects CQP; otherwise it is five seconds of frames plus one |
| EncoderSetup.SurfaceCount | libhb/enc_qsv.c:287-294 | 1 ≤ surfaces ≤ AV_QSV_SURFACE_NUM; the suggestion plus the depth when that fits; the maximum when that sum is not positive |
| EncoderSetup.SyncCount | libhb/enc_qsv.c:323-325 | at most AV_QSV_SYNC_NUM and at most the surface count; the maximum with opaque surfaces |
| EncoderSetup.SyncPoolWithinSurfacePool | libhb/enc_qsv.c:287-325 | 1 ≤ sync points ≤ surfaces ≤ surface maximum |
| EncoderSetup.MapFrameType | libhb/enc_qsv.c:1205-1215 | IDR wins over I, I over P, P over B, each as an if-and-only-if; the reference flag is exactly the REF bit |
| EncoderSetup.MapFrameTypeInverts | libhb/enc_qsv.c:1205-1215 | the mapping recovers every frame type and reference flag from its Media SDK bits |
| EncoderSetup.MapFrameTypeIgnoresOtherBits | libhb/enc_qsv.c:1205-1215 | bits outside I/P/B/REF/IDR do not change the mapping |
| EncoderSetup.StripStartCode | libhb/enc_qsv.c:745-751 | the buffer's bytes move four places to the front and the length drops by 4 |
| EncoderSetup.StripRecoversNal | libhb/enc_qsv.c:745-751 | stripping one start-coded NAL unit leaves exactly that unit |
| NalReframer.CInt | libhb/enc_qsv.c:1354 | the `(int)` cast of a size: in 32-bit range, and the identity below 2^31 |
| NalReframer.StartCodeSearch | libhb/enc_qsv.c:1353-1371 | the new position stays in the buffer; a found code has four bytes behind it |
| NalReframer.ScanFrom | libhb/enc_qsv.c:1358-1365 | the scan of `nal_find_start_code`: it stops inside the buffer, at or after where it starts |
| NalReframer.ScanFromBounds | libhb/enc_qsv.c:1358-1365 | the scan stops at the leftmost accepted start code, and skips none |
| NalReframer.StartCodeSearchLeftmost | libhb/enc_qsv.c:1353-1371 | a found code sits at the leftmost accepted start code, and the code is 0x100 plus the NAL header byte |
| NalReframer.FindStartCode | libhb/enc_qsv.c:1353-1371 | pointer and size move together; under 4 bytes nothing is consumed; not found leaves 3 bytes; found is an accepted start code |
| NalReframer.NalEnd | libhb/enc_qsv.c:1382-1394 | the end of the current NAL unit lies between its header and the next start code |
| NalReframer.NalsFrom | libhb/enc_qsv.c:1380-1412 | the NAL bodies from a start code on; `NalsFromStep`, `NalsFromBounds` and `NalsFromUnits` state them |
| NalReframer.NalsAfter | libhb/enc_qsv.c:1353-1412 | the NAL bodies found once the search resumes at a position: none without an accepted start code |
| NalReframer.SplitNals | libhb/enc_qsv.c:1373-1412 | the NAL bodies of a whole buffer; `SplitAssembled` states them for well-formed input |
| NalReframer.NalsFromStep | libhb/enc_qsv.c:1380-1412 | from one accepted start code to the next, the first body runs to `NalEnd` and the rest follow from the next code |
| NalReframer.NalsFromBounds | libhb/enc_qsv.c:1380-1412 | each NAL unit uses at least 4 input bytes, so the framed size is at most the input plus one byte per unit |
| NalReframer.FrameLength | libhb/enc_qsv.c:1395-1406 | the framed length is 4 per NAL unit plus the payload bytes |
| NalReframer.FrameAppend | libhb/enc_qsv.c:1395-1406 | framing distributes over concatenation |
| NalReframer.LowBytes | libhb/enc_qsv.c:1396-1402 | the low bytes of a size, most significant first, as many as asked for |
| NalReframer.Prefix | libhb/enc_qsv.c:1396-1402 | the four prefix bytes: 0, then bits 16..23, 8..15 and 0..7 of the size; stated by the three lemmas below |
| NalReframer.PrefixFirstByteZero | libhb/enc_qsv.c:1396-1402 | the prefix is 4 bytes and its first byte is always 0 |
| NalReframer.PrefixKeepsLow24Bits | libhb/enc_qsv.c:1396-1402 | the prefix read as big-endian is the size mod 2^24, and equals the size exactly when the size is below 2^24 |
| NalReframer.PrefixWrongAt16MiB | libhb/enc_qsv.c:1396-1402 | a 16 MiB NAL unit gets the prefix 00 00 00 00 |
| NalReframer.Reframe | libhb/enc_qsv.c:1373-1414 | what `parse_nalus` appends: each NAL body with its prefix; stated by the lemmas below and `StreamFormats.ReframeRoundTrip` |
| NalReframer.ReframeBounds | libhb/enc_qsv.c:1373-1414 | each NAL unit uses at least 4 input bytes, and the output is at most twice the input |
| NalReframer.ReframeEmptyIff | libhb/enc_qsv.c:1373-1414 | the output is empty exactly when the input holds no accepted start code |
| NalReframer.OutBuffer.constructor | libhb/enc_qsv.c:1199-1203 | an empty buffer of the given capacity |
| NalReframer.OutBuffer.Append | libhb/enc_qsv.c:1395-1406 | the contents grow by exactly the appended bytes |
| NalReframer.ParseNalus | libhb/enc_qsv.c:1373-1414 | the buffer's contents gain exactly `Reframe(s)` |
| NalReframer.WriteNextNal | libhb/enc_qsv.c:1380-1412 | one loop round: written bytes plus what remains equals what remained before, and the remaining size shrinks |
| NalReframer.MeasureNal | libhb/enc_qsv.c:1382-1394 | the next start code is found and the current NAL unit's length is computed, trailing zero before a 4-byte code excluded |
| NalReframer.ParseStep | libhb/enc_qsv.c:1380-1412 | one round of the loop takes exactly the first pending NAL body, and what remains pending is the rest |
| NalReframer.FrameCons | libhb/enc_qsv.c:1395-1406 | framing a first NAL unit and the rest is its prefix, its bytes, then the framed rest |
| NalReframer.ParseRound | libhb/enc_qsv.c:1380-1412 | after one round, the written prefix and NAL plus the framing of what remains is still the target output |
| StreamFormats.Bodies | libhb/enc_qsv.c:1373-1414 | the payloads of the units, one per unit, in order |
| StreamFormats.FrameDecodes | libhb/enc_qsv.c:1395-1406 | decoding framed NAL units (each under 16 MiB) gives them back |
| StreamFormats.FrameLosesHugeNal | libhb/enc_qsv.c:1396-1402 | a 16 MiB NAL unit does not survive framing and decoding |
| StreamFormats.SplitAssembled | libhb/enc_qsv.c:1373-1414 | splitting leading junk followed by well-formed Annex B units gives exactly their payloads |
| StreamFormats.ReframeRoundTrip | libhb/enc_qsv.c:1373-1414 | decoding the reframed output gives back the NAL unit payloads of the Annex B input |
| StreamFormats.NalsFromUnits | libhb/enc_qsv.c:1380-1412 | from the first unit's start code the parser yields exactly the units' payloads |
| StreamFormats.NoCodeInsideUnit | libhb/enc_qsv.c:1358-1365 | no start code begins inside a well-formed unit's body |
| StreamFormats.ScanSkips | libhb/enc_qsv.c:1358-1365 | the scan passes over positions that hold no start code |
| StreamFormats.NextUnit | libhb/enc_qsv.c:1380-1412 | from a unit's start code, the parser yields that unit's body and continues at the next unit's code, whether it has three or four bytes |
| StreamFormats.LastUnit | libhb/enc_qsv.c:1380-1412 | the last unit's body runs to the end of the buffer |
| DtsReorder.DtsList.constructor | libhb/enc_qsv.c:872-876 | a new list is empty |
| DtsReorder.AddNewDts | libhb/enc_qsv.c:88-99 | appends at the tail; a NULL list is left alone |
| DtsReorder.PopNextDts | libhb/enc_qsv.c:100-114 | a NULL or empty list gives INT64_MIN; otherwise the head, which is removed |
| DtsReorder.PopsInOrder | libhb/enc_qsv.c:88-114 | n pops give the queued timestamps in order, then INT64_MIN |
| DtsReorder.InitialBfrmDelay | libhb/enc_qsv.c:853-868 | the delay is 0 or 1, and 0 exactly for Baseline or Constrained profiles, GopRefDist ≤ 1 or GopPicSize ≤ 2 |
| DtsReorder.BfrmWorkaround | libhb/enc_qsv.c:869-881 | DTS is generated here only with B-frames; with B-frames it is generated before API 1.6 and for variable frame rate; never for constant frame rate with API 1.6 |
| DtsReorder.WorkaroundNeedsBFrames | libhb/enc_qsv.c:853-881 | never for the Baseline and Constrained profiles, GopRefDist ≤ 1 or GopPicSize ≤ 2; otherwise exactly for variable frame rate or before API 1.6 |
| DtsReorder.U64 | libhb/enc_qsv.c:1250-1252 | a value taken as `uint64_t`: below 2^64, and unchanged when it fits |
| DtsReorder.Int32 | libhb/enc_qsv.c:1250 | a value stored in an `int`: in 32-bit range, congruent to the value mod 2^32, and unchanged when it fits |
| DtsReorder.CorrectedBfrmDelay | libhb/enc_qsv.c:1242-1255 | the corrected delay lies in 1..BFRM_DELAY_MAX; when the rounded gap is non-negative and its quotient fits an `int`, it is that quotient clamped to that range |
| DtsReorder.QuotientInRange | libhb/enc_qsv.c:1250-1252 | a quotient that fits both `uint64_t` and `int` passes the two conversions unchanged |
| DtsReorder.LateDtsWrapsToMaxDelay | libhb/enc_qsv.c:1250-1254 | at 3600 ticks a frame, a DTS one frame after the PTS gives the delay BFRM_DELAY_MAX, where the rounded signed gap would give 1 |
| DtsReorder.CorrectionRoundsToNearest | libhb/enc_qsv.c:1250-1252 | for a non-negative gap, the quotient is the gap divided by the duration, rounded to nearest |
| DtsReorder.RecordPts | libhb/enc_qsv.c:1059-1070 | recording a PTS keeps the history valid and the frame counters unchanged |
| DtsReorder.AcceptInput | libhb/enc_qsv.c:1059-1070 | recording an input and counting it keeps the history valid |
| DtsReorder.InitPtsWrittenOnce | libhb/enc_qsv.c:1061-1064 | only slot `frames_in` of `init_pts` changes, and it takes the PTS |
| DtsReorder.QueuedUnlessFirst | libhb/enc_qsv.c:1065-1068 | every PTS but the first enters the DTS list |
| DtsReorder.EmitDts | libhb/enc_qsv.c:1266-1275 | emitting keeps the history valid and counts one output |
| DtsReorder.ReplayStart | libhb/enc_qsv.c:370-387 | the initial history replays the empty input |
| DtsReorder.ReplayInput | libhb/enc_qsv.c:1059-1070 | accepting an input extends the replayed input sequence by that PTS |
| DtsReorder.ExpectedDts | libhb/enc_qsv.c:1258-1275 | the DTS of output i under delay d: `pts[i] - pts[d]` up to d, then `pts[i - d]`; `ReplayOutput` proves the engine gives it |
| DtsReorder.ReplayOutput | libhb/enc_qsv.c:1266-1275 | the i-th DTS is `pts[i] - pts[d]` for i ≤ d and `pts[i-d]` after |
| DtsReorder.ReplayEarly | libhb/enc_qsv.c:1266-1270 | an output frame up to the delay reads `init_pts`, keeps the agreement and gets its expected DTS |
| DtsReorder.ReplayPop | libhb/enc_qsv.c:1271-1274 | a later output frame pops the timestamp of input i - d, keeps the agreement and gets its expected DTS |
| DtsReorder.DtsAtDelayIsZero | libhb/enc_qsv.c:1266-1270 | the DTS of frame d is 0 |
| DtsReorder.DtsMonotone | libhb/enc_qsv.c:1258-1275 | for non-decreasing non-negative input PTS the generated DTS never decreases, and the DTS of output i is at most the PTS of input i (the i-th input, not the frame output i, which B-frames reorder) |
| DtsReorder.FirstNegative | libhb/enc_qsv.c:1292-1295 | the index of the first negative DTS, or none when there is none |
| DtsReorder.UpdateInitDelay | libhb/enc_qsv.c:1292-1295 | the `init_delay` update after one output frame; stated by the two lemmas below |
| DtsReorder.InitDelayKept | libhb/enc_qsv.c:1292-1295 | a nonzero `init_delay` is never changed |
| DtsReorder.InitDelayFromFirstNegative | libhb/enc_qsv.c:1292-1295 | from 0, `init_delay` is minus the first negative DTS, or 0; it is never negative |
| ChapterCarrier.OnInput | libhb/enc_qsv.c:1079-1095 | a keyframe is forced exactly when a marker arrives, markers are on and no mark is pending; the mark then takes the frame's PTS; the frame's marker is consumed when markers are on |
| ChapterCarrier.OnOutput | libhb/enc_qsv.c:1303-1308 | the mark is attached exactly to an eligible frame (pending, IDR, start at or after the mark), and then cleared |
| ChapterCarrier.MarksOf | libhb/enc_qsv.c:1303-1308 | one mark per output frame |
| ChapterCarrier.FirstEligible | libhb/enc_qsv.c:1303-1308 | the first eligible output frame, or none |
| ChapterCarrier.NothingPendingNoMarks | libhb/enc_qsv.c:1303-1308 | with nothing pending, no output frame is marked |
| ChapterCarrier.MarkAttachedOnce | libhb/enc_qsv.c:1303-1308 | the mark goes to the first eligible output frame and to no other |
| TaskRing.TasksAmount | libhb/enc_qsv.c:254 | there are at least one and exactly `max_async_depth` tasks when that is set |
| TaskRing.Identity | libhb/enc_qsv.c:256-266 | the initial task list holds each task once |
| TaskRing.Rotate | libhb/enc_qsv.c:1310-1314 | the head task moved to the tail of the task list |
| TaskRing.RotateKeepsTaskList | libhb/enc_qsv.c:1310-1314 | moving the head to the tail keeps the same tasks, each once |
| TaskRing.SubmitStep | libhb/enc_qsv.c:1107-1160 | a submission: accepted, the stage goes to the task at `async_depth`, the depth grows by one and the delayed pipelines are flushed newest first; more-data delays the frame's pipeline; an error changes nothing; the task list is kept |
| TaskRing.DrainOnce | libhb/enc_qsv.c:1184-1323 | one drain: the depth drops by one, the task list stays a task list, and the delayed pipelines are kept |
| TaskRing.DrainMany | libhb/enc_qsv.c:1180-1323 | one drain per bitstream length: the depth drops by their number and the delayed pipelines are kept |
| TaskRing.SubmitKeepsPipelines | libhb/enc_qsv.c:1119-1159 | no pipeline is lost: every delayed pipeline, and the frame's own when delayed, is still delayed or flushed; only an accepted submission flushes |
| TaskRing.SubmitKeepsFifo | libhb/enc_qsv.c:1107-1160 | submitting at `async_depth` appends to the in-flight order |
| TaskRing.DrainKeepsFifo | libhb/enc_qsv.c:1184-1323 | the head task holds the oldest submission, and a drain with data keeps the order of the rest |
| TaskRing.ZeroLengthDrainBreaksFifo | libhb/enc_qsv.c:1107-1323 | on a ring of depth 2 with stages 0 and 1 in flight, a drain without data, a submission and a drain: the submission overwrites stage 1 and both drains return stage 0 |
| TaskRing.Reverse | libhb/enc_qsv.c:1152-1157 | element k of the result is element n-1-k of the input |
| TaskRing.ReverseKeepsElements | libhb/enc_qsv.c:1152-1157 | the flush order holds every delayed pipeline, as often as it was delayed |
| TaskRing.Settled | libhb/enc_qsv.c:1110-1127 | the submission loop settles on an answer that is not "device busy" and was given |
| TaskRing.SettledIsFirst | libhb/enc_qsv.c:1110-1127 | it is the first answer that is not "device busy" |
| TaskRing.Ring.constructor | libhb/enc_qsv.c:254-266 | `TasksAmount` tasks, none in use, no stage attached |
| TaskRing.Ring.Submit | libhb/enc_qsv.c:1098-1175 | retries while busy and settles on the first other answer; the ring and the flushed pipelines are those of `SubmitStep`; the FIFO is kept |
| TaskRing.Ring.FlushDelayed | libhb/enc_qsv.c:1152-1159 | the delayed list is emptied and its pipelines are flushed from the last one |
| TaskRing.Ring.Drain | libhb/enc_qsv.c:1184-1323 | takes the head task and its stage, which is the oldest in flight; the ring changes as `DrainOnce`; the FIFO is kept when data was produced |
| TaskRing.Ring.SubmitAndDrain | libhb/enc_qsv.c:1098-1323 | one input's submission, then a drain exactly when `Drains` says; the ring and the flushed pipelines are those of `SubmitStep` then `DrainOnce`; the drained stage is the oldest, and the FIFO is kept unless the drained task had no data |
| QsvEncoder.InputStep | libhb/enc_qsv.c:1044-1095 | the input side of encqsvWork: `last_start`, the DTS history and the chapter slot; stated by `WorkStepFacts` and `Encoder.RecordInput` |
| QsvEncoder.DelayFor | libhb/enc_qsv.c:1242-1255 | the B-frame delay used for an output frame lies in 0..BFRM_DELAY_MAX |
| QsvEncoder.TimingOf | libhb/enc_qsv.c:1233-1296 | the DTS, delay, DTS list and `init_delay` of an output frame; the delay lies in 0..BFRM_DELAY_MAX |
| QsvEncoder.EmitStep | libhb/enc_qsv.c:1196-1321 | the output buffer made of a drained task with data, and the state after it; stated by `EmitStepFacts` |
| QsvEncoder.EmitStepOf | libhb/enc_qsv.c:1196-1321 | the output step assembled from its timing and chapter decision |
| QsvEncoder.EmitStepFacts | libhb/enc_qsv.c:1196-1321 | data, marking, times, DTS by case, B-frame delay, DTS history, `init_delay`, chapter mark and `frames_out` of one output frame; `frames_in`, `init_pts` and `last_start` are untouched |
| QsvEncoder.OutputStep | libhb/enc_qsv.c:1181-1337 | the output side of one encqsvWork call, then the `frames_in` increment |
| QsvEncoder.CountInput | libhb/enc_qsv.c:1336-1337 | one more frame counted in `frames_in` |
| QsvEncoder.WorkStep | libhb/enc_qsv.c:982-1351 | encqsvWork for one input frame: input side, then nothing without a sync point, an error on a failed submission, otherwise the output side |
| QsvEncoder.WorkStepFacts | libhb/enc_qsv.c:982-1351 | an error exactly when a sync point was free and the submission failed; the frame counted unless then or without a sync point; one output exactly when a task with data was drained, the frame `EmitStep` makes of it; never done |
| QsvEncoder.DrainStep | libhb/enc_qsv.c:1184-1321 | draining one finished task: an output buffer when it has data, otherwise nothing |
| QsvEncoder.DrainStepFacts | libhb/enc_qsv.c:1184-1321 | the output describes the task exactly when it has data, `frames_out` counts it, and the input side is untouched |
| QsvEncoder.DrainFrom | libhb/enc_qsv.c:1180-1330 | draining finished tasks in order, an output buffer for each one with data |
| QsvEncoder.DrainFromNext | libhb/enc_qsv.c:1180-1330 | draining one more task extends the drain by that task's step |
| QsvEncoder.WithData | libhb/enc_qsv.c:1197 | the drained tasks that have data, in order; each is one of the tasks |
| QsvEncoder.DescribeAllAppend | libhb/enc_qsv.c:1180-1330 | outputs that describe two runs of tasks, joined, describe the joined run |
| QsvEncoder.DrainFromOutputs | libhb/enc_qsv.c:1180-1330 | the outputs of a drain are, in drain order, one per task with data: its reframed bitstream, mapped frame type and PTS; `frames_out` grows by their number and the input side is untouched |
| QsvEncoder.FlushDrains | libhb/enc_qsv.c:1180-1330 | how many tasks the end-of-stream loop drains for the encoder's answers, or none when a submission fails; stated by `FlushDrainsBounds` |
| QsvEncoder.FlushDrainsRound | libhb/enc_qsv.c:1180-1330 | one round of the end-of-stream loop fails, stops, or adds its drains and goes on |
| QsvEncoder.FlushDrainsBounds | libhb/enc_qsv.c:1180-1330 | the flush fails only when some answer failed; otherwise it drains at least the tasks in flight and at most one more per round |
| QsvEncoder.FlushAccepts | libhb/enc_qsv.c:1107-1330 | whether the end-of-stream loop has a submission accepted before it stops; stated by `FlushAcceptsBounds` |
| QsvEncoder.FlushAcceptsBounds | libhb/enc_qsv.c:1107-1330 | a submission is accepted only if some remaining answer is a success, and always when the next one is |
| QsvEncoder.FlushAcceptsRound | libhb/enc_qsv.c:1107-1330 | one round fails, stops, is accepted, or leaves the question to the next round |
| QsvEncoder.Lengths | libhb/enc_qsv.c:1184-1323 | one bitstream length per drained task, in order |
| QsvEncoder.DrainManyNext | libhb/enc_qsv.c:1180-1323 | draining one more task extends the ring's drains by that task |
| QsvEncoder.Payload | libhb/enc_qsv.c:1199-1216 | the output buffer's data is exactly the reframed bitstream |
| QsvEncoder.Encoder.constructor | libhb/enc_qsv.c:364-387 | counters zero, no chapter pending, empty ring of `TasksAmount` tasks, B-frame delay and DTS workaround as `InitialBfrmDelay` and `BfrmWorkaround` decide |
| QsvEncoder.Encoder.RecordInput | libhb/enc_qsv.c:1051-1095 | `last_start` becomes the PTS; the DTS history advances by `RecordPts`; the chapter slot follows `OnInput` |
| QsvEncoder.Encoder.RenderOffset | libhb/enc_qsv.c:1233-1296 | the DTS is the PTS without B-frames or the encoder's DTS when trusted; otherwise `EmitDts` of the history after the delay correction; `init_delay` follows `UpdateInitDelay` |
| QsvEncoder.Encoder.Emit | libhb/enc_qsv.c:1196-1321 | data is `Reframe` of the bitstream, the marking is `MapFrameType`, the times and DTS as above, and the chapter mark is as `OnOutput` decides; counts one output |
| QsvEncoder.Encoder.Output | libhb/enc_qsv.c:1181-1337 | the state and output of `OutputStep` |
| QsvEncoder.Encoder.DrainTask | libhb/enc_qsv.c:1184-1321 | one task drained: the ring changes as `DrainOnce`, and state and output follow `DrainStep` |
| QsvEncoder.Encoder.DrainNext | libhb/enc_qsv.c:1184-1321 | draining task n extends a drain of the first n tasks to the first n + 1, for the ring (`DrainMany`) and for state and outputs (`DrainFirst`) |
| QsvEncoder.Encoder.DrainLoop | libhb/enc_qsv.c:1180-1323 | the do-while itself: it drains every task in flight, one finished task each, keeping the ring equal to `DrainMany` and the state and outputs equal to `DrainFirst` of the tasks drained so far |
| QsvEncoder.Encoder.DrainRound | libhb/enc_qsv.c:1180-1323 | the do-while drains every task in flight; the ring is `DrainMany` of the old ring, and state and outputs extend the drain by as many tasks |
| QsvEncoder.Encoder.FlushRound | libhb/enc_qsv.c:1098-1330 | one end-of-stream round: a failed submission changes nothing; otherwise every task in flight is drained, one more when the submission was accepted; the flushed pipelines are those of `SubmitStep`, and the delayed list is empty after an accepted submission |
| QsvEncoder.Encoder.FlushNext | libhb/enc_qsv.c:1098-1330 | one round of the end-of-stream loop carries the drain count, the outputs, the delayed list and what `FlushDrains` and `FlushAccepts` leave to the later rounds |
| QsvEncoder.Encoder.Work | libhb/enc_qsv.c:982-1351 | new state, status, IDR request and output are those of `WorkStep` for the answer the submission settled on; without a sync point the ring is unchanged, otherwise it and the flushed pipelines are those of `SubmitStep` then `DrainOnce` when drained; the drained stage is the oldest while the FIFO holds |
| QsvEncoder.Encoder.Flush | libhb/enc_qsv.c:1180-1330 | an error exactly when `FlushDrains` fails; otherwise done with an empty ring after `FlushDrains` drains; state and outputs are those of `DrainFirst` for that many finished tasks; the delayed list is empty exactly when `FlushAccepts` |
| OutputTracks.Existing | win/CS/HandBrake.Interop/HandBrakeInterop/HandBrakeInstance.cs:655-663 | the chosen tracks kept by the inner loop; never more than were chosen |
| OutputTracks.ExistingMembers | win/CS/HandBrake.Interop/HandBrakeInterop/HandBrakeInstance.cs:655-663 | the tracks kept are the chosen tracks that exist in the title; all of them when all exist |
| OutputTracks.Pairs | win/CS/HandBrake.Interop/HandBrakeInterop/HandBrakeInstance.cs:655-663 | one pair per track, in order, each with the encoding |
| OutputTracks.Contribution | win/CS/HandBrake.Interop/HandBrakeInterop/HandBrakeInstance.cs:652-676 | the pairs one encoding adds; stated by `ContributionCases` |
| OutputTracks.ContributionCases | win/CS/HandBrake.Interop/HandBrakeInterop/HandBrakeInstance.cs:652-676 | InputNumber 0 gives every existing chosen track; k ≤ chosen count gives chosen track k when it exists; larger k gives nothing |
| OutputTracks.AddForAllChosen | win/CS/HandBrake.Interop/HandBrakeInterop/HandBrakeInstance.cs:655-663 | the loop pairs the encoding with each existing chosen track, in order |
| OutputTracks.Outputs | win/CS/HandBrake.Interop/HandBrakeInterop/HandBrakeInstance.cs:646-680 | the list of all encodings' contributions, or none when an InputNumber is negative; stated by the lemmas below |
| OutputTracks.GetOutputTracks | win/CS/HandBrake.Interop/HandBrakeInterop/HandBrakeInstance.cs:646-680 | the list is `Outputs` of the encodings |
| OutputTracks.OutputsBounded | win/CS/HandBrake.Interop/HandBrakeInterop/HandBrakeInstance.cs:646-680 | every output track number is at most the title's audio track count, and every encoding is one of the job's |
| OutputTracks.OutputsFailIff | win/CS/HandBrake.Interop/HandBrakeInterop/HandBrakeInstance.cs:665-668 | the call fails exactly when some InputNumber is negative |
| OutputTracks.OutputsAppend | win/CS/HandBrake.Interop/HandBrakeInterop/HandBrakeInstance.cs:650-677 | the output of concatenated encoding lists is the concatenation of their outputs |
| OutputTracks.OutputsSingle | win/CS/HandBrake.Interop/HandBrakeInterop/HandBrakeInstance.cs:650-677 | one encoding's output is its contribution |
| OutputTracks.Matching | win/CS/HandBrake.Interop/HandBrakeInterop/HandBrakeInstance.cs:689 | exactly the titles with that number; empty when none has it |
| OutputTracks.GetTitle | win/CS/HandBrake.Interop/HandBrakeInterop/HandBrakeInstance.cs:687-690 | null exactly when no title has the number; the title itself when exactly one has it; a failure when two or more have it |
| OutputTracks.GetTitleDistinct | win/CS/HandBrake.Interop/HandBrakeInterop/HandBrakeInstance.cs:687-690 | with titles numbered 1, 2, …, number k+1 finds the k-th title |
| OutputTracks.MatchingUnique | win/CS/HandBrake.Interop/HandBrakeInterop/HandBrakeInstance.cs:689 | with distinct title numbers at most one title matches |
| OutputTracks.MatchingCount | win/CS/HandBrake.Interop/HandBrakeInterop/HandBrakeInstance.cs:689 | two titles with the number give at least two matches; exactly one gives just that title |
| InteropModel.ChosenOf | win/CS/HandBrake.ApplicationServices/Utilities/InteropModelCreator.cs:86-89 | at most one chosen track per audio track; one for each exactly when every audio track has a track |
| InteropModel.ChosenMembers | win/CS/HandBrake.ApplicationServices/Utilities/InteropModelCreator.cs:86-89 | a track is chosen exactly when some audio track has it |
| InteropModel.ChosenPrefix | win/CS/HandBrake.ApplicationServices/Utilities/InteropModelCreator.cs:71-90 | the tracks chosen by a prefix are a prefix of those chosen by all |
| InteropModel.ChosenInOrder | win/CS/HandBrake.ApplicationServices/Utilities/InteropModelCreator.cs:71-90 | an audio track's track is chosen at the position after those of earlier tracks |
| InteropModel.AudioEncodingsOf | win/CS/HandBrake.ApplicationServices/Utilities/InteropModelCreator.cs:71-90 | one encoding per audio track, in order, with InputNumber the track or 0, and the track's bitrate, encoder and name |
| InteropModel.ConvertAudio | win/CS/HandBrake.ApplicationServices/Utilities/InteropModelCreator.cs:69-90 | the loop builds the encodings and the chosen tracks |
| InteropModel.RangeOf | win/CS/HandBrake.ApplicationServices/Utilities/InteropModelCreator.cs:99-126 | each mode gets its range type and only its own start/end pair; other modes leave the type unset |
| InteropModel.ConvertRange | win/CS/HandBrake.ApplicationServices/Utilities/InteropModelCreator.cs:99-126 | the switch gives `RangeOf` |
| InteropModel.VideoSettingsOf | win/CS/HandBrake.ApplicationServices/Utilities/InteropModelCreator.cs:193-225 | x264: its preset, its tune if any then "fastdecode" if set, its profile and level; x265: its preset, its tune if any, its profile unless None; other encoders: nothing |
| InteropModel.ConvertVideo | win/CS/HandBrake.ApplicationServices/Utilities/InteropModelCreator.cs:193-225 | the branches give `VideoSettingsOf` |
| InteropModel.ProfileOf | win/CS/HandBrake.ApplicationServices/Utilities/InteropModelCreator.cs:133-233 | null sizes, frame rate, quality and bitrate become 0 and a null modulus 16; Deblock is set exactly when it exceeds 4; CFR and PFR flags match the mode |
| InteropModel.SrtSubtitles | win/CS/HandBrake.ApplicationServices/Utilities/InteropModelCreator.cs:239-251 | one SRT subtitle per SRT track |
| InteropModel.SourceSubtitles | win/CS/HandBrake.ApplicationServices/Utilities/InteropModelCreator.cs:252-265 | one source subtitle per non-SRT track with a source track |
| InteropModel.Count | win/CS/HandBrake.ApplicationServices/Utilities/InteropModelCreator.cs:235-266 | never more than there are tracks; none exactly when no track goes there, all exactly when every track does |
| InteropModel.ConvertSubtitles | win/CS/HandBrake.ApplicationServices/Utilities/InteropModelCreator.cs:235-266 | the loop gives both subtitle lists |
| InteropModel.SubtitlePartition | win/CS/HandBrake.ApplicationServices/Utilities/InteropModelCreator.cs:235-266 | SRT, source and dropped tracks add up to all tracks |
| InteropModel.NothingDroppedIff | win/CS/HandBrake.ApplicationServices/Utilities/InteropModelCreator.cs:252-265 | nothing is dropped exactly when every non-SRT track has a source track |
| InteropModel.SubtitleOrigins | win/CS/HandBrake.ApplicationServices/Utilities/InteropModelCreator.cs:235-266 | each source subtitle comes from a non-SRT track with that source; every SRT track is converted |
| InteropModel.ContainerName | win/CS/HandBrake.ApplicationServices/Utilities/InteropModelCreator.cs:134-142 | "av_mp4" for MP4, "av_mkv" for MKV, and unset otherwise |
| InteropModel.EncodeJobOf | win/CS/HandBrake.ApplicationServices/Utilities/InteropModelCreator.cs:59-269 | the job the conversion builds, section by section from the functions above |
| InteropModel.GetEncodeJob | win/CS/HandBrake.ApplicationServices/Utilities/InteropModelCreator.cs:59-269 | the job is `EncodeJobOf(task)`: profile, audio, range, chapters and subtitles as above |
| InteropModel.GetEncodeJobForQueueTask | win/CS/HandBrake.ApplicationServices/Utilities/InteropModelCreator.cs:39-48 | null exactly for a null queue task or a null inner task; otherwise the inner task's job |
| InteropModel.Numbered | win/CS/HandBrake.Interop/HandBrakeInterop/HandBrakeInstance.cs:665-676 | one pair per encoding, in order |
| InteropModel.ConsecutiveChosen | win/CS/HandBrake.ApplicationServices/Utilities/InteropModelCreator.cs:86-89 | audio tracks 1..n in order are chosen as 1..n |
| InteropModel.ConsecutiveTracksKeepTheirEncodings | win/CS/HandBrake.Interop/HandBrakeInterop/HandBrakeInstance.cs:665-676 | with tracks 1..n in order all present in the title, each encoding goes to its own track |
| InteropModel.SecondTrackAloneGetsNoOutput | win/CS/HandBrake.Interop/HandBrakeInterop/HandBrakeInstance.cs:665-676 | an encoding made for source track 2 alone gets no output track |

## Left out

- Media SDK calls are not executed. `EncodeFrameAsync`, `SyncOperation`, `GetVideoParam` and `Query` become inputs: the scripted submission answers, the completed bitstreams and the negotiated parameters.
- Memory allocation, freeing, `av_qsv_sleep`, logging and swscale/VPP surface copies are not modelled. So are opaque and video-memory surfaces, and pipeline bookkeeping beyond the stage each task carries.
- The contents of surfaces are not modelled. A frame is represented only by its PTS, chapter mark and stage.
- `hb_list_rem` removes by pointer. The model removes the head by index, which is the same element.
- QsvEncoder.Encoder.Flush: answers beyond the scripted rounds are taken as more-data. A sync-point shortage in the middle of a flush is not modelled.
- QsvEncoder.Encoder.Flush: the end-of-stream input buffer, which `encqsvWork` links after the last output buffer (or returns alone) with `HB_WORK_DONE`, is not part of `out`. `out` holds only the encoded frames.
- QsvEncoder.Encoder.Flush: the task order and the stages after the loop are stated only through `Valid()` (a task list, one stage slot per task) and an empty ring. The pipelines flushed by each accepted round are not returned; the delayed list is stated.
- QsvEncoder.Encoder.FlushRound: after a round that did not fail, the task order and the stages are stated only through `Valid()` and an empty ring. `DrainRound` states them exactly, as `DrainMany` of the ring after the submission.
- QsvEncoder.Encoder.Work: device-busy answers are retried without the sleep. The retry count is not bounded.
- The 32-bit `frames_in`/`frames_out` counters are unbounded here. They do not wrap.
- RateControl.Select: the quality is an integer. The 16-bit truncation of the bitrate fields is modelled; the job's own `int` fields are unbounded here. `InitialDelayInKB`, the `vbv_init` fraction and the frame rate as a fraction are not modelled. The frame rate is taken as an already rounded integer.
- DtsReorder.CorrectedBfrmDelay: the frame duration is a positive `int64_t` parameter. It is not computed in floating point from the frame rate, and a zero duration, a division by zero in the C, is excluded.
- Profiles.SelectLevel: `hb_qsv_atoindex` and the level tables of `h264_common.h` are not part of this model. They enter as parameters.
- The `encqsvInit` parsing of advanced options (`hb_qsv_param_parse`) is not modelled beyond its status codes. The same holds for the other video parameters it fills in and for the check of the GOP/B-pyramid settings against capabilities.
- `openclwrapper.h` is not part of this model.
- The rest of `HandBrakeInstance.cs` is not part of this model: scanning, the encode loop, previews and events.
- The enum-to-string conversions `Converters.*` and `ToString().ToLower()` are not modelled. Preset, tune, profile and encoder names are inputs already given as strings.
- The DRC and gain doubles, the sample rate and mixdown of audio encodings are not modelled.
- The remaining picture, filter and output fields of `EncodingProfile` are copied without being read; they are not modelled. This includes the `DisplayWidth` rounding.
- `Seconds` ranges are integers. The C# fields are doubles.
- The `EncodingProfile` defaults of fields the conversion does not assign are not visible here. Such fields are `None`.
- OutputTracks.GetOutputTracks: a negative `InputNumber` makes `ChosenAudioTracks[InputNumber - 1]` throw. The model reports it as `None`.
- OutputTracks.GetTitle: `SingleOrDefault` throws on more than one match. The model reports it as `Failure`.
- NalReframer.ParseNalus: requires room for `Reframe(s)` in the output buffer. The C writes without checking; an overflow is not modelled.
- QsvEncoder.Payload: requires the reframed bitstream to fit the buffer `hb_video_buffer_init` allocated. The C does not check.
- QsvEncoder.Encoder.Emit: requires the reframed bitstream to fit the output buffer, as `Payload` does.
- QsvEncoder.Encoder.Output: requires the reframed bitstream to fit the output buffer, as `Payload` does.
- QsvEncoder.Encoder.Work: requires the reframed bitstream of the drained task to fit the output buffer, as `Payload` does.
- QsvEncoder.Encoder.DrainTask: requires the reframed bitstream to fit the output buffer, as `Payload` does.
- QsvEncoder.Encoder.DrainNext: requires the drained task's reframed bitstream to fit the output buffer, as `Payload` does.
- QsvEncoder.Encoder.DrainRound: requires every finished task's reframed bitstream to fit the output buffer, as `Payload` does.
- QsvEncoder.Encoder.DrainLoop: requires every finished task's reframed bitstream to fit the output buffer, as `Payload` does.
- QsvEncoder.Encoder.FlushRound: requires every finished task's reframed bitstream to fit the output buffer, as `Payload` does.
- QsvEncoder.Encoder.Flush: requires every finished task's reframed bitstream to fit the output buffer, as `Payload` does.
- EncoderSetup.StripStartCode: requires at least the 4 start-code bytes. The C subtracts 4 from the size Media SDK reports without checking it.
