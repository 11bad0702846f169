/**
 * The H.264 profile and level handling of libhb/enc_qsv.c: the
 * translation of Media SDK profile and level values into names
 * (qsv_h264_profile_xlat, qsv_h264_level_xlat) and the reading of the
 * job's profile and level strings in encqsvInit.
 *
 * The numeric values of the MFX_PROFILE_AVC_* and MFX_LEVEL_AVC_* constants
 * come from Media SDK's mfxstructures.h, which is not part of this model;
 * the values below are the ones that header gives them.
 */
module Profiles {
  import opened Wrappers
  import opened QsvCommon

  /** The H.264 profiles qsv_h264_profile_xlat names, and MFX_PROFILE_UNKNOWN. */
  datatype Profile = Unknown | ConstrainedBaseline | Baseline | Extended | Main | ConstrainedHigh | ProgressiveHigh | High

  const MFX_PROFILE_UNKNOWN := 0
  const MFX_PROFILE_AVC_BASELINE := 66
  const MFX_PROFILE_AVC_MAIN := 77
  const MFX_PROFILE_AVC_EXTENDED := 88
  const MFX_PROFILE_AVC_HIGH := 100
  /** Baseline with constraint_set1_flag. */
  const MFX_PROFILE_AVC_CONSTRAINED_BASELINE := 66 + 0x200
  /** High with constraint_set4_flag and constraint_set5_flag. */
  const MFX_PROFILE_AVC_CONSTRAINED_HIGH := 100 + 0x1000 + 0x2000
  /** High with constraint_set4_flag. */
  const MFX_PROFILE_AVC_PROGRESSIVE_HIGH := 100 + 0x1000

  const MFX_LEVEL_AVC_1 := 10
  const MFX_LEVEL_AVC_51 := 51
  const MFX_LEVEL_AVC_52 := 52

  /** The CodecProfile value of each profile. */
  function Code(p: Profile): int
  {
    match p
    case Unknown => MFX_PROFILE_UNKNOWN
    case ConstrainedBaseline => MFX_PROFILE_AVC_CONSTRAINED_BASELINE
    case Baseline => MFX_PROFILE_AVC_BASELINE
    case Extended => MFX_PROFILE_AVC_EXTENDED
    case Main => MFX_PROFILE_AVC_MAIN
    case ConstrainedHigh => MFX_PROFILE_AVC_CONSTRAINED_HIGH
    case ProgressiveHigh => MFX_PROFILE_AVC_PROGRESSIVE_HIGH
    case High => MFX_PROFILE_AVC_HIGH
  }

  /** The `switch` of qsv_h264_profile_xlat: which case a CodecProfile value takes. */
  function ProfileOfCode(code: int): (p: Profile)
    ensures p != Unknown ==> Code(p) == code
  {
    if code == MFX_PROFILE_AVC_CONSTRAINED_BASELINE then ConstrainedBaseline
    else if code == MFX_PROFILE_AVC_BASELINE then Baseline
    else if code == MFX_PROFILE_AVC_EXTENDED then Extended
    else if code == MFX_PROFILE_AVC_MAIN then Main
    else if code == MFX_PROFILE_AVC_CONSTRAINED_HIGH then ConstrainedHigh
    else if code == MFX_PROFILE_AVC_PROGRESSIVE_HIGH then ProgressiveHigh
    else if code == MFX_PROFILE_AVC_HIGH then High
    else Unknown
  }

  /** The name qsv_h264_profile_xlat gives each case; NULL for MFX_PROFILE_UNKNOWN. */
  function Name(p: Profile): Option<string>
  {
    match p
    case Unknown => None
    case ConstrainedBaseline => Some("Constrained Baseline")
    case Baseline => Some("Baseline")
    case Extended => Some("Extended")
    case Main => Some("Main")
    case ConstrainedHigh => Some("Constrained High")
    case ProgressiveHigh => Some("Progressive High")
    case High => Some("High")
  }

  /** qsv_h264_profile_xlat: the name of a CodecProfile value, NULL when it is not a known profile. */
  function ProfileXlat(code: int): Option<string>
  {
    Name(ProfileOfCode(code))
  }

  /**
   * Every known profile is named after its own value, and only values of
   * known profiles get a name (the `default` case gives NULL).
   */
  lemma ProfileXlatExact(p: Profile, code: int)
    ensures p != Unknown ==> ProfileOfCode(Code(p)) == p && ProfileXlat(Code(p)) == Name(p) != None
    ensures ProfileXlat(code) != None <==> exists q: Profile :: q != Unknown && Code(q) == code
  {
    var q := ProfileOfCode(code);
    if q != Unknown {
      assert Code(q) == code;
    }
  }

  /** Different profiles have different values and, when named, different names. */
  lemma ProfilesDistinct(p: Profile, q: Profile)
    requires p != q
    ensures Code(p) != Code(q)
    ensures Name(p) != None ==> Name(p) != Name(q)
  {
  }

  /** ASCII `tolower`, as strcasecmp applies it to each byte. */
  function ToLower(c: char): char
  {
    if 'A' <= c <= 'Z' then (c as int + 32) as char else c
  }

  /** `strcasecmp(a, b) == 0`: equal lengths and equal bytes up to ASCII case. */
  predicate SameIgnoringCase(a: string, b: string)
  {
    |a| == |b| && forall i :: 0 <= i < |a| ==> ToLower(a[i]) == ToLower(b[i])
  }

  /** What encqsvInit does with the job's profile or level string. */
  datatype Request = KeepDefault | Use(value: int)

  /** The string is absent, empty or "auto" (in any case): the default stays. */
  predicate IsAuto(s: Option<string>)
  {
    s == None || s.value == "" || SameIgnoringCase(s.value, "auto")
  }

  /**
   * encqsvInit's reading of `job->h264_profile`: "baseline", "main" and
   * "high" in any case select that profile, NULL, "" and "auto" keep the
   * default, anything else is the "bad profile" error.
   */
  function ParseProfile(s: Option<string>): (r: Result<Request, string>)
    ensures r.Success? && r.value.Use? ==> r.value.value in {MFX_PROFILE_AVC_BASELINE, MFX_PROFILE_AVC_MAIN, MFX_PROFILE_AVC_HIGH}
    ensures r == Success(KeepDefault) <==> IsAuto(s)
  {
    if IsAuto(s) then Success(KeepDefault)
    else if SameIgnoringCase(s.value, "baseline") then Success(Use(MFX_PROFILE_AVC_BASELINE))
    else if SameIgnoringCase(s.value, "main") then Success(Use(MFX_PROFILE_AVC_MAIN))
    else if SameIgnoringCase(s.value, "high") then Success(Use(MFX_PROFILE_AVC_HIGH))
    else Failure("bad profile")
  }

  /**
   * Each of the three names, in any case, selects its own profile and
   * nothing else does; every other string that is not "auto" is the
   * "bad profile" error.
   */
  lemma ParseProfileChoice(s: Option<string>)
    ensures ParseProfile(s) == Success(Use(MFX_PROFILE_AVC_BASELINE)) <==> s.Some? && SameIgnoringCase(s.value, "baseline")
    ensures ParseProfile(s) == Success(Use(MFX_PROFILE_AVC_MAIN)) <==> s.Some? && SameIgnoringCase(s.value, "main")
    ensures ParseProfile(s) == Success(Use(MFX_PROFILE_AVC_HIGH)) <==> s.Some? && SameIgnoringCase(s.value, "high")
    ensures ParseProfile(s) == Failure("bad profile") <==>
      !IsAuto(s) && !SameIgnoringCase(s.value, "baseline") && !SameIgnoringCase(s.value, "main") && !SameIgnoringCase(s.value, "high")
  {
    if s.Some? && |s.value| == 4 {
      var x := s.value;
      if SameIgnoringCase(x, "main") {
        assert ToLower(x[0]) == 'm';
        assert ToLower("auto"[0]) == 'a' && ToLower("high"[0]) == 'h';
      } else if SameIgnoringCase(x, "high") {
        assert ToLower(x[0]) == 'h';
        assert ToLower("auto"[0]) == 'a';
      }
    }
  }

  /**
   * The names qsv_h264_profile_xlat prints for Baseline, Main and High are
   * read back by encqsvInit as the same profile; the other names are
   * refused.
   */
  lemma ProfileNameRoundTrip(p: Profile)
    requires p != Unknown
    ensures p in {Baseline, Main, High} ==> ParseProfile(Name(p)) == Success(Use(Code(p)))
    ensures p !in {Baseline, Main, High} ==> ParseProfile(Name(p)).Failure?
  {
    var n := Name(p).value;
    match p
    case Baseline =>
      assert |n| != |"auto"|;
      assert SameIgnoringCase(n, "baseline");
    case Main =>
      assert ToLower(n[0]) != ToLower("auto"[0]);
      assert |n| != |"baseline"|;
      assert forall i :: 0 <= i < 4 ==> ToLower(n[i]) == ToLower("main"[i]);
    case High =>
      assert ToLower(n[0]) != ToLower("auto"[0]);
      assert |n| != |"baseline"|;
      assert ToLower(n[0]) != ToLower("main"[0]);
      assert forall i :: 0 <= i < 4 ==> ToLower(n[i]) == ToLower("high"[i]);
    case ConstrainedBaseline =>
    case Extended =>
      assert ToLower(n[0]) != ToLower("baseline"[0]);
    case ConstrainedHigh =>
    case ProgressiveHigh =>
  }

  /**
   * qsv_h264_level_xlat: the first name of the level table whose value is
   * `level`, NULL when none has it. The tables hb_h264_level_names and
   * hb_h264_level_values live in h264_common.h, which is not part of this
   * model, and are parameters here; `names` holds the names before the
   * NULL that ends the table.
   */
  method LevelXlat(names: seq<string>, values: seq<int>, level: int) returns (name: Option<string>)
    requires |names| <= |values|
    ensures name == None <==> forall i :: 0 <= i < |names| ==> values[i] != level
    ensures name != None ==>
      exists i :: 0 <= i < |names| && values[i] == level && name.value == names[i] && forall j :: 0 <= j < i ==> values[j] != level
  {
    var i := 0;
    while i < |names|
      invariant 0 <= i <= |names|
      invariant forall j :: 0 <= j < i ==> values[j] != level
    {
      if values[i] == level {
        return Some(names[i]);
      }
      i := i + 1;
    }
    return None;
  }

  /**
   * encqsvInit's choice of CodecLevel for a job's level string that is not
   * "auto": `index` and `err` are what hb_qsv_atoindex (not part of this
   * model) makes of it. An error or an index past the value table is the
   * "bad level" error; otherwise the table's value, clamped to levels 1 to
   * 5.2, or to 1 to 5.1 before Media SDK API 1.6.
   */
  function SelectLevel(values: seq<int>, index: int, err: bool, api16: bool): (r: Result<int, string>)
    ensures r.Failure? <==> err || index < 0 || index >= |values|
    ensures r.Success? ==> MFX_LEVEL_AVC_1 <= r.value <= (if api16 then MFX_LEVEL_AVC_52 else MFX_LEVEL_AVC_51)
    ensures r.Success? && MFX_LEVEL_AVC_1 <= values[index] <= (if api16 then MFX_LEVEL_AVC_52 else MFX_LEVEL_AVC_51)
      ==> r.value == values[index]
  {
    if err || index < 0 || index >= |values| then Failure("bad level")
    else
      var hi := if api16 then MFX_LEVEL_AVC_52 else MFX_LEVEL_AVC_51;
      Success(Clip3(MFX_LEVEL_AVC_1, hi, values[index]))
  }
}
