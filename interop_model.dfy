/**
 * InteropModelCreator.GetEncodeJob (HandBrake.ApplicationServices): the
 * conversion of the user interface's EncodeTask into the interop layer's
 * EncodeJob and its EncodingProfile. Modelled are the rules that decide
 * something: the audio encodings and chosen audio tracks, the range
 * fields picked by the point-to-point mode, the defaults of unset
 * values, the Deblock threshold, the container name, the preset, tune
 * and profile of the x264 and x265 encoders, the chapter names, the
 * advanced options and the partition of the subtitle tracks.
 */
module InteropModel {
  import opened Wrappers
  import opened OutputTracks

  /** An audio track of the task: Track is the 1-based source track, or null. */
  datatype AudioTrack = AudioTrack(track: Option<int>, bitrate: int, encoder: string, trackName: string)

  /** A subtitle track of the task: an SRT file, or a source track (which may be missing). */
  datatype SubtitleTrack = SubtitleTrack(
    isSrt: bool, sourceTrack: Option<int>,
    burned: bool, isDefault: bool, forced: bool,
    srtFileName: string, srtLang: string, srtCharCode: string, srtOffset: int)

  datatype SrtSubtitle = SrtSubtitle(
    characterCode: string, isDefault: bool, fileName: string, languageCode: string, offset: int, burnedIn: bool)

  datatype SourceSubtitle = SourceSubtitle(burnedIn: bool, isDefault: bool, forced: bool, trackNumber: int)

  /** PointToPointMode; OtherMode stands for any value the switch does not name. */
  datatype PointToPointMode = Chapters | Seconds | Frames | OtherMode

  datatype VideoRangeType = RangeChapters | RangeSeconds | RangeFrames

  /** OutputFormat; OtherFormat stands for any value the switch does not name. */
  datatype OutputFormat = Mp4 | Mkv | OtherFormat

  datatype FramerateMode = Cfr | Pfr | Vfr

  datatype VideoEncoder = X264 | X265 | OtherEncoder

  /**
   * The fields of an EncodeTask the conversion reads. Enumerations that
   * are written out as lower-case names without spaces (presets, tunes,
   * profiles) are given here by that name; a tune or an x265 profile of
   * None is None.
   */
  datatype EncodeTask = EncodeTask(
    audioTracks: seq<AudioTrack>,
    destination: string, source: string, title: int, angle: int,
    pointToPointMode: PointToPointMode, startPoint: int, endPoint: int,
    outputFormat: OutputFormat,
    height: Option<int>, width: Option<int>, maxHeight: Option<int>, maxWidth: Option<int>, modulus: Option<int>,
    deblock: int,
    framerate: Option<int>, framerateMode: FramerateMode, quality: Option<int>, videoBitrate: Option<int>,
    videoEncoder: VideoEncoder,
    x264Preset: string, x264Tune: Option<string>, fastDecode: bool, h264Profile: string, h264Level: string,
    x265Preset: string, x265Tune: Option<string>, h265Profile: Option<string>,
    includeChapterMarkers: bool, chapterNames: seq<string>,
    showAdvancedTab: bool, advancedEncoderOptions: string, extraAdvancedArguments: string,
    subtitleTracks: seq<SubtitleTrack>)

  /** A queued task: its EncodeTask may be null. */
  datatype QueueTask = QueueTask(task: Option<EncodeTask>)

  /** The preset, tunes, profile and level of the video encoder; None where the conversion leaves them unset. */
  datatype VideoSettings = VideoSettings(
    preset: Option<string>, tunes: Option<seq<string>>, profile: Option<string>, level: Option<string>)

  /**
   * The EncodingProfile fields the conversion writes; None is a property
   * the conversion leaves as a new EncodingProfile has it.
   */
  datatype EncodingProfile = EncodingProfile(
    audioEncodings: seq<AudioEncoding>,
    containerName: Option<string>,
    height: int, width: int, maxHeight: int, maxWidth: int, modulus: int,
    deblock: Option<int>,
    framerate: int, constantFramerate: bool, peakFramerate: bool, quality: int, videoBitrate: int,
    video: VideoSettings,
    includeChapterMarkers: bool, videoOptions: string)

  /** The range fields of an EncodeJob; those the conversion does not assign stay 0. */
  datatype Range = Range(
    rangeType: Option<VideoRangeType>,
    secondsStart: int, secondsEnd: int, chapterStart: int, chapterEnd: int, framesStart: int, framesEnd: int)

  /** The EncodeJob fields the conversion writes. */
  datatype EncodeJob = EncodeJob(
    profile: EncodingProfile,
    chosenAudioTracks: seq<int>,
    outputPath: string, sourcePath: string, title: int, angle: int,
    range: Range,
    customChapterNames: seq<string>, useDefaultChapterNames: bool,
    srtSubtitles: seq<SrtSubtitle>, sourceSubtitles: seq<SourceSubtitle>)

  /** The value of a nullable field, or `default` when it is null. */
  function ValueOr(o: Option<int>, default: int): int
  {
    if o.Some? then o.value else default
  }

  /** The audio encoding made for one audio track. */
  function EncodingOf(t: AudioTrack): AudioEncoding
  {
    AudioEncoding(ValueOr(t.track, 0), t.encoder, t.bitrate, t.trackName)
  }

  /**
   * The tracks of the audio tracks that have one, in order: nothing is
   * dropped exactly when every audio track names one.
   */
  function ChosenOf(tracks: seq<AudioTrack>): (r: seq<int>)
    ensures |r| <= |tracks|
    ensures |r| == |tracks| <==> forall k :: 0 <= k < |tracks| ==> tracks[k].track.Some?
    decreases |tracks|
  {
    if tracks == [] then []
    else
      var last := tracks[|tracks| - 1];
      ChosenOf(tracks[..|tracks| - 1]) + (if last.track.Some? then [last.track.value] else [])
  }

  function SrtOf(t: SubtitleTrack): SrtSubtitle
  {
    SrtSubtitle(t.srtCharCode, t.isDefault, t.srtFileName, t.srtLang, t.srtOffset, t.burned)
  }

  function SourceOf(t: SubtitleTrack): SourceSubtitle
    requires t.sourceTrack.Some?
  {
    SourceSubtitle(t.burned, t.isDefault, t.forced, t.sourceTrack.value)
  }

  /** Where a subtitle track goes: the SRT list, the source list, or nowhere. */
  datatype Destination = ToSrt | ToSource | Dropped

  function DestinationOf(t: SubtitleTrack): Destination
  {
    if t.isSrt then ToSrt else if t.sourceTrack.Some? then ToSource else Dropped
  }

  /**
   * The subtitle tracks that go to `d`: none exactly when no track goes
   * there, all exactly when every track does.
   */
  function Count(subs: seq<SubtitleTrack>, d: Destination): (n: nat)
    ensures n <= |subs|
    ensures n == 0 <==> forall k :: 0 <= k < |subs| ==> DestinationOf(subs[k]) != d
    ensures n == |subs| <==> forall k :: 0 <= k < |subs| ==> DestinationOf(subs[k]) == d
    decreases |subs|
  {
    if subs == [] then 0
    else Count(subs[..|subs| - 1], d) + (if DestinationOf(subs[|subs| - 1]) == d then 1 else 0)
  }

  /** SrtSubtitles for the subtitle tracks, in order. */
  function SrtSubtitles(subs: seq<SubtitleTrack>): (r: seq<SrtSubtitle>)
    ensures |r| == Count(subs, ToSrt)
    decreases |subs|
  {
    if subs == [] then []
    else
      var last := subs[|subs| - 1];
      SrtSubtitles(subs[..|subs| - 1]) + (if last.isSrt then [SrtOf(last)] else [])
  }

  /** SourceSubtitles for the subtitle tracks, in order. */
  function SourceSubtitles(subs: seq<SubtitleTrack>): (r: seq<SourceSubtitle>)
    ensures |r| == Count(subs, ToSource)
    decreases |subs|
  {
    if subs == [] then []
    else
      var last := subs[|subs| - 1];
      SourceSubtitles(subs[..|subs| - 1]) + (if !last.isSrt && last.sourceTrack.Some? then [SourceOf(last)] else [])
  }

  /** The audio encodings of the audio tracks: one per track, in order, with the track as input number or 0. */
  function AudioEncodingsOf(tracks: seq<AudioTrack>): (r: seq<AudioEncoding>)
    ensures |r| == |tracks|
    ensures forall k :: 0 <= k < |tracks| ==>
      && r[k].inputNumber == (if tracks[k].track.Some? then tracks[k].track.value else 0)
      && r[k].bitrate == tracks[k].bitrate && r[k].encoder == tracks[k].encoder && r[k].name == tracks[k].trackName
  {
    seq(|tracks|, k requires 0 <= k < |tracks| => EncodingOf(tracks[k]))
  }

  /** The range fields for a point-to-point mode: only the pair of that mode is assigned. */
  function RangeOf(mode: PointToPointMode, start: int, end: int): (r: Range)
    ensures mode == Seconds <==> r.rangeType == Some(RangeSeconds)
    ensures mode == Chapters <==> r.rangeType == Some(RangeChapters)
    ensures mode == Frames <==> r.rangeType == Some(RangeFrames)
    ensures mode == OtherMode <==> r.rangeType == None
    ensures (r.secondsStart, r.secondsEnd) == if mode == Seconds then (start, end) else (0, 0)
    ensures (r.chapterStart, r.chapterEnd) == if mode == Chapters then (start, end) else (0, 0)
    ensures (r.framesStart, r.framesEnd) == if mode == Frames then (start, end) else (0, 0)
  {
    match mode
    case Chapters => Range(Some(RangeChapters), 0, 0, start, end, 0, 0)
    case Seconds => Range(Some(RangeSeconds), start, end, 0, 0, 0, 0)
    case Frames => Range(Some(RangeFrames), 0, 0, 0, 0, start, end)
    case OtherMode => Range(None, 0, 0, 0, 0, 0, 0)
  }

  /** The tune of an encoder as a list: empty for None. */
  function TuneList(tune: Option<string>): seq<string>
  {
    if tune.Some? then [tune.value] else []
  }

  /**
   * The encoder settings: for x264 its preset, the tune (unless None)
   * followed by "fastdecode" when asked for, its profile and level; for
   * x265 its preset, its tune, and its profile only when it is not None;
   * nothing for other encoders.
   */
  function VideoSettingsOf(w: EncodeTask): (v: VideoSettings)
    ensures v.tunes.Some? <==> w.videoEncoder != OtherEncoder
    ensures w.videoEncoder == X264 ==>
      && v.preset == Some(w.x264Preset) && v.profile == Some(w.h264Profile) && v.level == Some(w.h264Level)
      && |v.tunes.value| == (if w.x264Tune.Some? then 1 else 0) + (if w.fastDecode then 1 else 0)
      && (w.x264Tune.Some? ==> v.tunes.value[0] == w.x264Tune.value)
      && (w.fastDecode ==> v.tunes.value[|v.tunes.value| - 1] == "fastdecode")
    ensures w.videoEncoder == X265 ==>
      && v.preset == Some(w.x265Preset) && v.profile == w.h265Profile && v.level == None
      && |v.tunes.value| == (if w.x265Tune.Some? then 1 else 0)
      && (w.x265Tune.Some? ==> v.tunes.value == [w.x265Tune.value])
    ensures w.videoEncoder == OtherEncoder ==> v == VideoSettings(None, None, None, None)
  {
    match w.videoEncoder
    case X264 =>
      VideoSettings(Some(w.x264Preset), Some(TuneList(w.x264Tune) + (if w.fastDecode then ["fastdecode"] else [])),
                    Some(w.h264Profile), Some(w.h264Level))
    case X265 => VideoSettings(Some(w.x265Preset), Some(TuneList(w.x265Tune)), w.h265Profile, None)
    case OtherEncoder => VideoSettings(None, None, None, None)
  }

  /** The container name of an output format. */
  function ContainerName(f: OutputFormat): Option<string>
  {
    match f
    case Mp4 => Some("av_mp4")
    case Mkv => Some("av_mkv")
    case OtherFormat => None
  }

  /**
   * The profile: unset sizes, frame rate, quality and bitrate become 0,
   * an unset modulus 16, and Deblock is copied only above 4.
   */
  function ProfileOf(w: EncodeTask): (p: EncodingProfile)
    ensures p.audioEncodings == AudioEncodingsOf(w.audioTracks) && p.video == VideoSettingsOf(w)
    ensures p.height == ValueOr(w.height, 0) && p.width == ValueOr(w.width, 0)
    ensures p.maxHeight == ValueOr(w.maxHeight, 0) && p.maxWidth == ValueOr(w.maxWidth, 0)
    ensures p.framerate == ValueOr(w.framerate, 0) && p.quality == ValueOr(w.quality, 0)
    ensures p.videoBitrate == ValueOr(w.videoBitrate, 0)
    ensures w.modulus.None? ==> p.modulus == 16
    ensures w.modulus.Some? ==> p.modulus == w.modulus.value
    ensures p.deblock.Some? <==> w.deblock > 4
    ensures p.deblock.Some? ==> p.deblock.value == w.deblock
    ensures p.constantFramerate <==> w.framerateMode == Cfr
    ensures p.peakFramerate <==> w.framerateMode == Pfr
  {
    EncodingProfile(
      AudioEncodingsOf(w.audioTracks), ContainerName(w.outputFormat),
      ValueOr(w.height, 0), ValueOr(w.width, 0), ValueOr(w.maxHeight, 0), ValueOr(w.maxWidth, 0), ValueOr(w.modulus, 16),
      if w.deblock > 4 then Some(w.deblock) else None,
      ValueOr(w.framerate, 0), w.framerateMode == Cfr, w.framerateMode == Pfr, ValueOr(w.quality, 0), ValueOr(w.videoBitrate, 0),
      VideoSettingsOf(w),
      w.includeChapterMarkers,
      if w.showAdvancedTab then w.advancedEncoderOptions else w.extraAdvancedArguments)
  }

  /** The EncodeJob GetEncodeJob builds from an EncodeTask. */
  function EncodeJobOf(w: EncodeTask): EncodeJob
  {
    EncodeJob(
      ProfileOf(w), ChosenOf(w.audioTracks),
      w.destination, w.source, w.title, w.angle,
      RangeOf(w.pointToPointMode, w.startPoint, w.endPoint),
      w.chapterNames, w.includeChapterMarkers,
      SrtSubtitles(w.subtitleTracks), SourceSubtitles(w.subtitleTracks))
  }

  /** The audio part of GetEncodeJob: one encoding per audio track, and the chosen track when it has one. */
  method ConvertAudio(tracks: seq<AudioTrack>) returns (audio: seq<AudioEncoding>, chosen: seq<int>)
    ensures audio == AudioEncodingsOf(tracks) && chosen == ChosenOf(tracks)
  {
    audio, chosen := [], [];
    var i := 0;
    while i < |tracks|
      invariant 0 <= i <= |tracks|
      invariant |audio| == i && forall k :: 0 <= k < i ==> audio[k] == EncodingOf(tracks[k])
      invariant chosen == ChosenOf(tracks[..i])
    {
      var track := tracks[i];
      assert tracks[..i + 1][..i] == tracks[..i];
      audio := audio + [AudioEncoding(if track.track.Some? then track.track.value else 0, track.encoder, track.bitrate, track.trackName)];
      if track.track.Some? {
        chosen := chosen + [track.track.value];
      }
      i := i + 1;
    }
    assert tracks[..i] == tracks;
  }

  /** The range part of GetEncodeJob: the switch on the mode, then the pair of that mode. */
  method ConvertRange(mode: PointToPointMode, start: int, end: int) returns (r: Range)
    ensures r == RangeOf(mode, start, end)
  {
    var rangeType: Option<VideoRangeType> := None;
    match mode {
      case Chapters => rangeType := Some(RangeChapters);
      case Seconds => rangeType := Some(RangeSeconds);
      case Frames => rangeType := Some(RangeFrames);
      case OtherMode =>
    }
    var ss, se, cs, ce, fs, fe := 0, 0, 0, 0, 0, 0;
    if mode == Seconds {
      se, ss := end, start;
    }
    if mode == Chapters {
      cs, ce := start, end;
    }
    if mode == Frames {
      fe, fs := end, start;
    }
    r := Range(rangeType, ss, se, cs, ce, fs, fe);
  }

  /** The encoder part of GetEncodeJob: preset, tune list, profile and level. */
  method ConvertVideo(w: EncodeTask) returns (v: VideoSettings)
    ensures v == VideoSettingsOf(w)
  {
    v := VideoSettings(None, None, None, None);
    if w.videoEncoder == X264 {
      var tunes: seq<string> := [];
      if w.x264Tune.Some? {
        tunes := tunes + [w.x264Tune.value];
      }
      assert tunes == TuneList(w.x264Tune);
      if w.fastDecode {
        tunes := tunes + ["fastdecode"];
      }
      assert tunes == TuneList(w.x264Tune) + (if w.fastDecode then ["fastdecode"] else []);
      v := VideoSettings(Some(w.x264Preset), Some(tunes), Some(w.h264Profile), Some(w.h264Level));
    } else if w.videoEncoder == X265 {
      var profile: Option<string> := None;
      if w.h265Profile.Some? {
        profile := w.h265Profile;
      }
      var tunes: seq<string> := [];
      if w.x265Tune.Some? {
        tunes := tunes + [w.x265Tune.value];
      }
      assert tunes == TuneList(w.x265Tune);
      v := VideoSettings(Some(w.x265Preset), Some(tunes), profile, None);
    }
  }

  /** The subtitle part of GetEncodeJob: SRT tracks, source tracks with a source, the rest dropped. */
  method ConvertSubtitles(subs: seq<SubtitleTrack>) returns (srt: seq<SrtSubtitle>, source: seq<SourceSubtitle>)
    ensures srt == SrtSubtitles(subs) && source == SourceSubtitles(subs)
  {
    srt, source := [], [];
    var j := 0;
    while j < |subs|
      invariant 0 <= j <= |subs|
      invariant srt == SrtSubtitles(subs[..j])
      invariant source == SourceSubtitles(subs[..j])
    {
      var track := subs[j];
      assert subs[..j + 1][..j] == subs[..j];
      if track.isSrt {
        srt := srt + [SrtSubtitle(track.srtCharCode, track.isDefault, track.srtFileName, track.srtLang, track.srtOffset, track.burned)];
      } else {
        if track.sourceTrack.Some? {
          source := source + [SourceSubtitle(track.burned, track.isDefault, track.forced, track.sourceTrack.value)];
        }
      }
      j := j + 1;
    }
    assert subs[..j] == subs;
  }

  /**
   * GetEncodeJob(EncodeTask): fills a new job and profile section by
   * section (audio, range, output, picture, filters, video, chapters,
   * advanced options, subtitles).
   */
  method GetEncodeJob(w: EncodeTask) returns (job: EncodeJob)
    ensures job == EncodeJobOf(w)
  {
    var audio, chosen := ConvertAudio(w.audioTracks);
    var range := ConvertRange(w.pointToPointMode, w.startPoint, w.endPoint);
    var container: Option<string> := None;
    match w.outputFormat {
      case Mp4 => container := Some("av_mp4");
      case Mkv => container := Some("av_mkv");
      case OtherFormat =>
    }
    var height, maxHeight, maxWidth := ValueOr(w.height, 0), ValueOr(w.maxHeight, 0), ValueOr(w.maxWidth, 0);
    var modulus, width := ValueOr(w.modulus, 16), ValueOr(w.width, 0);
    var deblock: Option<int> := None;
    if w.deblock > 4 {
      deblock := Some(w.deblock);
    }
    var framerate, quality, videoBitrate := ValueOr(w.framerate, 0), ValueOr(w.quality, 0), ValueOr(w.videoBitrate, 0);
    var video := ConvertVideo(w);
    var options := if w.showAdvancedTab then w.advancedEncoderOptions else w.extraAdvancedArguments;
    var srt, source := ConvertSubtitles(w.subtitleTracks);
    var profile := EncodingProfile(
      audio, container, height, width, maxHeight, maxWidth, modulus, deblock,
      framerate, w.framerateMode == Cfr, w.framerateMode == Pfr, quality, videoBitrate,
      video, w.includeChapterMarkers, options);
    job := EncodeJob(
      profile, chosen, w.destination, w.source, w.title, w.angle, range,
      w.chapterNames, w.includeChapterMarkers, srt, source);
  }

  /** GetEncodeJob(QueueTask): null for a null queue task or a queue task without an EncodeTask. */
  method GetEncodeJobForQueueTask(task: Option<QueueTask>) returns (job: Option<EncodeJob>)
    ensures job.None? <==> task.None? || task.value.task.None?
    ensures job.Some? ==> job.value == EncodeJobOf(task.value.task.value)
  {
    if task.None? || task.value.task.None? {
      return None;
    }
    var j := GetEncodeJob(task.value.task.value);
    job := Some(j);
  }

  /** A track is chosen exactly when some audio track has it. */
  lemma {:induction false} ChosenMembers(tracks: seq<AudioTrack>)
    ensures forall x :: x in ChosenOf(tracks) <==> exists k :: 0 <= k < |tracks| && tracks[k].track == Some(x)
    decreases |tracks|
  {
    if tracks != [] {
      var init := tracks[..|tracks| - 1];
      ChosenMembers(init);
      forall x
        ensures (exists k :: 0 <= k < |tracks| && tracks[k].track == Some(x)) <==>
          (exists k :: 0 <= k < |init| && init[k].track == Some(x)) || tracks[|tracks| - 1].track == Some(x)
      {
        if exists k :: 0 <= k < |tracks| && tracks[k].track == Some(x) {
          var k :| 0 <= k < |tracks| && tracks[k].track == Some(x);
          if k < |init| {
            assert init[k] == tracks[k];
          }
        }
        if exists k :: 0 <= k < |init| && init[k].track == Some(x) {
          var k :| 0 <= k < |init| && init[k].track == Some(x);
          assert tracks[k] == init[k];
        }
      }
    }
  }

  /** The tracks chosen by a prefix of the audio tracks are a prefix of those chosen by all of them. */
  lemma {:induction false} ChosenPrefix(tracks: seq<AudioTrack>, i: nat)
    requires i <= |tracks|
    ensures ChosenOf(tracks[..i]) <= ChosenOf(tracks)
    decreases |tracks|
  {
    if i < |tracks| {
      var init := tracks[..|tracks| - 1];
      assert init[..i] == tracks[..i];
      ChosenPrefix(init, i);
    } else {
      assert tracks[..i] == tracks;
    }
  }

  /**
   * ChosenAudioTracks keeps the order of the audio tracks: the track of
   * the i-th audio track, when it has one, comes right after the tracks
   * chosen before it.
   */
  lemma ChosenInOrder(tracks: seq<AudioTrack>, i: nat)
    requires i < |tracks| && tracks[i].track.Some?
    ensures |ChosenOf(tracks[..i])| < |ChosenOf(tracks)|
    ensures ChosenOf(tracks)[|ChosenOf(tracks[..i])|] == tracks[i].track.value
  {
    assert tracks[..i + 1][..i] == tracks[..i];
    assert ChosenOf(tracks[..i + 1]) == ChosenOf(tracks[..i]) + [tracks[i].track.value];
    ChosenPrefix(tracks, i + 1);
  }

  /** Every subtitle track goes to exactly one place: the SRT list, the source list, or nowhere. */
  lemma {:induction false} SubtitlePartition(subs: seq<SubtitleTrack>)
    ensures |SrtSubtitles(subs)| + |SourceSubtitles(subs)| + Count(subs, Dropped) == |subs|
    decreases |subs|
  {
    if subs != [] {
      SubtitlePartition(subs[..|subs| - 1]);
    }
  }

  /** Nothing is dropped exactly when every non-SRT track has a source track. */
  lemma {:induction false} NothingDroppedIff(subs: seq<SubtitleTrack>)
    ensures Count(subs, Dropped) == 0 <==> forall k :: 0 <= k < |subs| ==> subs[k].isSrt || subs[k].sourceTrack.Some?
    decreases |subs|
  {
    if subs != [] {
      var init := subs[..|subs| - 1];
      NothingDroppedIff(init);
      assert forall k :: 0 <= k < |init| ==> init[k] == subs[k];
    }
  }

  /** Every source subtitle comes from a non-SRT track with that source track, and every SRT track is converted. */
  lemma {:induction false} SubtitleOrigins(subs: seq<SubtitleTrack>)
    ensures forall x :: x in SourceSubtitles(subs) ==>
      exists k :: 0 <= k < |subs| && !subs[k].isSrt && subs[k].sourceTrack == Some(x.trackNumber)
    ensures forall k :: 0 <= k < |subs| && subs[k].isSrt ==> SrtOf(subs[k]) in SrtSubtitles(subs)
    decreases |subs|
  {
    if subs != [] {
      var init := subs[..|subs| - 1];
      SubtitleOrigins(init);
      assert forall k :: 0 <= k < |init| ==> init[k] == subs[k];
    }
  }

  /** Each encoding numbered with its own 1-based position. */
  function Numbered(encs: seq<AudioEncoding>): (ps: seq<Pair>)
    ensures |ps| == |encs|
  {
    seq(|encs|, k requires 0 <= k < |encs| => (encs[k], k + 1))
  }

  /** Audio tracks 1, 2, ..., n in that order are chosen as 1, 2, ..., n. */
  lemma {:induction false} ConsecutiveChosen(tracks: seq<AudioTrack>)
    requires forall k :: 0 <= k < |tracks| ==> tracks[k].track == Some(k + 1)
    ensures |ChosenOf(tracks)| == |tracks|
    ensures forall k :: 0 <= k < |tracks| ==> ChosenOf(tracks)[k] == k + 1
    decreases |tracks|
  {
    if tracks != [] {
      ConsecutiveChosen(tracks[..|tracks| - 1]);
    }
  }

  /**
   * GetEncodeJob followed by GetOutputTracks, when the task takes source
   * tracks 1, 2, ..., n in that order from a title that has them: every
   * encoding is applied to its own track and nothing else. GetEncodeJob
   * writes the source track into InputNumber, which GetOutputTracks reads
   * as a position in ChosenAudioTracks; the two readings agree here.
   */
  lemma {:induction false} ConsecutiveTracksKeepTheirEncodings(tracks: seq<AudioTrack>, count: int)
    requires forall k :: 0 <= k < |tracks| ==> tracks[k].track == Some(k + 1)
    requires |tracks| <= count
    ensures Outputs(AudioEncodingsOf(tracks), ChosenOf(tracks), count) == Some(Numbered(AudioEncodingsOf(tracks)))
  {
    var encs, chosen := AudioEncodingsOf(tracks), ChosenOf(tracks);
    ConsecutiveChosen(tracks);
    var j := 0;
    while j < |encs|
      invariant 0 <= j <= |encs|
      invariant Outputs(encs[..j], chosen, count) == Some(Numbered(encs[..j]))
    {
      assert encs[..j + 1][..j] == encs[..j];
      assert Contribution(encs[j], chosen, count) == [(encs[j], j + 1)];
      assert Numbered(encs[..j + 1]) == Numbered(encs[..j]) + [(encs[j], j + 1)];
      j := j + 1;
    }
    assert encs[..j] == encs;
  }

  /**
   * When the task takes only source track 2, the job's one encoding has
   * InputNumber 2 while ChosenAudioTracks has one entry, so
   * GetOutputTracks applies it to no track.
   */
  lemma SecondTrackAloneGetsNoOutput(t: AudioTrack, count: int)
    requires t.track == Some(2)
    ensures Outputs(AudioEncodingsOf([t]), ChosenOf([t]), count) == Some([])
  {
    assert [t][..0] == [];
    assert ChosenOf([t]) == [2];
    assert AudioEncodingsOf([t]) == [EncodingOf(t)];
    OutputsSingle(EncodingOf(t), [2], count);
  }
}
