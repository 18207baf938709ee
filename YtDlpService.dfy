/** The yt-dlp gateway of the YouTube-MP3 bot: its input guards, the download
    command line and exit-code policy, the thumbnail variant's result rule, the
    uploader/title line parser and the size/duration probes. Every process run
    is an input: its exit code, its output, or the exception it threw. */
module YtDlpService {
  import opened Text
  import Utils

  /** The service's final fields, set once by its constructor. */
  datatype Service = Service(
    ytDlpPath: string,
    ffmpegPath: string,
    ffprobePath: string,
    maxFileSize: int,
    maxDurationMinutes: real)

  /** The guard every operation starts with: the argument is non-null and not
      empty after trim(). */
  predicate Usable(arg: Option<string>) {
    arg.Some? && !TrimsToEmpty(arg.value)
  }

  // ---------------------------------------------------------------- paths

  /** java.io.File.getParent() for a Unix path. */
  function ParentOf(path: string): (r: Option<string>)
    ensures r.Some? ==> |r.value| < |path| && StartsWith(path, r.value)
  {
    var k := LastIndexOf(path, '/');
    if k > 0 then Some(path[..k])
    else if k == 0 && |path| > 1 then Some("/")
    else None
  }

  /** java.io.File.getName(): what follows the last '/'. */
  function FileName(path: string): (r: string)
    ensures '/' !in r && EndsWith(path, r)
  {
    var k := LastIndexOf(path, '/');
    AfterLastSlash(path, k);
    path[k + 1..]
  }

  lemma AfterLastSlash(path: string, k: int)
    requires k == LastIndexOf(path, '/')
    ensures '/' !in path[k + 1..] && EndsWith(path, path[k + 1..])
  {
    var r := path[k + 1..];
    forall j | 0 <= j < |r| ensures r[j] != '/' {
      assert r[j] == path[k + 1 + j];
    }
  }

  /** The last '/' of `dir + "/" + name` is the one added, when name has none. */
  lemma LastSlashOfJoin(dir: string, name: string)
    requires '/' !in name
    ensures LastIndexOf(dir + "/" + name, '/') == |dir|
  {
    NoSlashAfter(dir + "/", name);
    LastIndexOfIs(dir + "/" + name, '/', |dir|);
  }

  /** Appending a slash-free name adds no slash. */
  lemma NoSlashAfter(q: string, name: string)
    requires '/' !in name
    ensures forall k :: |q| <= k < |q + name| ==> (q + name)[k] != '/'
  {
    forall k | |q| <= k < |q + name| ensures (q + name)[k] != '/' {
      assert (q + name)[k] == name[k - |q|];
    }
  }

  /** The parent of a file inside a named directory is that directory. */
  lemma ParentOfJoin(dir: string, name: string)
    requires dir != [] && '/' !in name
    ensures ParentOf(dir + "/" + name) == Some(dir)
    ensures FileName(dir + "/" + name) == name
  {
    LastSlashOfJoin(dir, name);
    assert (dir + "/" + name)[..|dir|] == dir;
    assert (dir + "/" + name)[|dir| + 1..] == name;
  }

  // ---------------------------------------------------------------- downloadAudio

  const AUDIO_FORMAT: string := "bestaudio[ext=webm]/bestaudio/best"

  /** The command line when ffmpeg's directory is known. */
  function ArgsWithFfmpegDir(svc: Service, ffmpegDir: string, url: string, outputPath: string): seq<string> {
    [svc.ytDlpPath,
     "--ffmpeg-location", ffmpegDir,
     "--force-overwrites",
     "-f", AUDIO_FORMAT,
     "--extract-audio",
     "--audio-format", "mp3",
     "--audio-quality", "320K",
     "--postprocessor-args", "-b:a 320k",
     "--max-filesize", IntToString(svc.maxFileSize),
     "--no-playlist",
     "--max-downloads", "1",
     "--output", outputPath,
     url]
  }

  /** The command line when ffmpeg's path has no parent directory. */
  function ArgsWithoutFfmpegDir(svc: Service, url: string, outputPath: string): seq<string> {
    [svc.ytDlpPath,
     "--force-overwrites",
     "-f", AUDIO_FORMAT,
     "--extract-audio",
     "--audio-format", "mp3",
     "--audio-quality", "320K",
     "--postprocessor-args", "-b:a 320k",
     "--max-filesize", IntToString(svc.maxFileSize),
     "--no-playlist",
     "--max-downloads", "1",
     "--output", outputPath,
     url]
  }

  /** The two command lines differ only by the `--ffmpeg-location` pair
      right after the executable. */
  lemma ArgsDifferByLocation(svc: Service, dir: string, url: string, outputPath: string)
    ensures ArgsWithFfmpegDir(svc, dir, url, outputPath)
         == ArgsWithoutFfmpegDir(svc, url, outputPath)[..1] + ["--ffmpeg-location", dir]
            + ArgsWithoutFfmpegDir(svc, url, outputPath)[1..]
  {
  }

  /** The command downloadAudio runs, or None when its guard returns false first. */
  function DownloadCommand(svc: Service, url: Option<string>, outputPath: Option<string>): (argv: Option<seq<string>>)
    ensures argv.Some? <==> Usable(url) && Usable(outputPath)
    ensures argv.Some? ==> |argv.value| >= 19 && argv.value[0] == svc.ytDlpPath
    ensures argv.Some? ==> var a := argv.value;
      a[|a| - 8..|a| - 6] == ["--max-filesize", IntToString(svc.maxFileSize)]
      && a[|a| - 3..] == ["--output", outputPath.value, url.value]
  {
    if !(Usable(url) && Usable(outputPath)) then None
    else
      var dir := ParentOf(svc.ffmpegPath);
      if dir.Some? then Some(ArgsWithFfmpegDir(svc, dir.value, url.value, outputPath.value))
      else Some(ArgsWithoutFfmpegDir(svc, url.value, outputPath.value))
  }

  /** Exit codes downloadAudio treats as success: 0, and 101 (yt-dlp stopping
      at --max-downloads). */
  predicate AcceptedExit(code: int) { code == 0 || code == 101 }

  /** downloadAudio, given how the yt-dlp run ended (its exit code, or what
      starting or waiting for it threw). */
  function DownloadAudio(svc: Service, url: Option<string>, outputPath: Option<string>, run: Result<int>): (r: Result<bool>)
    ensures DownloadCommand(svc, url, outputPath).None? ==> r == Ok(false)
    ensures DownloadCommand(svc, url, outputPath).Some? && run.Thrown? ==> r == Thrown(run.error)
  {
    if !(Usable(url) && Usable(outputPath)) then Ok(false)
    else match run
      case Thrown(e) => Thrown(e)
      case Ok(code) => Ok(AcceptedExit(code))
  }

  /** With its guard passed, downloadAudio reports success exactly for exit
      codes 0 and 101. */
  lemma DownloadExitPolicy(svc: Service, url: string, outputPath: string, code: int)
    requires Usable(Some(url)) && Usable(Some(outputPath))
    ensures DownloadAudio(svc, Some(url), Some(outputPath), Ok(code)) == Ok(true) <==> code == 0 || code == 101
  {
  }

  // ---------------------------------------------------------------- downloadAudioWithThumbnail

  const WORK_DIR: string := "termuxserver/youtube_mp3_downloader_workzone"

  /** `name.replace(".mp3", "")`: one left-to-right pass. */
  function BaseNameOf(outputPath: string): string {
    ReplaceLiteral(FileName(outputPath), ".mp3", "")
  }

  /** The temporary download name: the base, '_', the clock reading, ".mp3". */
  function TempFileName(outputPath: string, millis: int): (r: string)
    ensures EndsWith(r, ".mp3") && !TrimsToEmpty(r)
    ensures StartsWith(r, BaseNameOf(outputPath) + "_" + IntToString(millis))
    ensures |r| == |BaseNameOf(outputPath)| + 1 + |IntToString(millis)| + 4
  {
    var r := BaseNameOf(outputPath) + "_" + IntToString(millis) + ".mp3";
    assert r[|r| - 1] == '3';
    r
  }

  /** A file name without ".mp3" inside it loses exactly its extension. */
  lemma Mp3Stripped(name: string)
    requires !Contains(name, ".mp3")
    ensures ReplaceLiteral(name + ".mp3", ".mp3", "") == name
  {
    var t := ".mp3";
    assert forall k :: 0 < k < |t| ==> t[k] != t[0];
    ReplaceStripsSuffix(name, t);
  }

  /** For an output path dir/name.mp3 whose name has no ".mp3" of its own,
      the temporary file is name_<millis>.mp3. */
  lemma TempNameOfDownload(dir: string, name: string, millis: int)
    requires dir != [] && '/' !in name && !Contains(name, ".mp3")
    ensures TempFileName(dir + "/" + (name + ".mp3"), millis) == name + "_" + IntToString(millis) + ".mp3"
  {
    ParentOfJoin(dir, name + ".mp3");
    Mp3Stripped(name);
  }

  /** The replace pass is not repeated: removing one ".mp3" can join the
      characters around it into another one. */
  lemma ReplaceSinglePass()
    ensures ReplaceLiteral(".m.mp3p3", ".mp3", "") == ".mp3"
  {
    var t := ".mp3";
    ReplaceLeavesTail();
    assert "m.mp3p3"[0] != t[0] && "m.mp3p3"[1..] == ".mp3p3";
    assert ReplaceLiteral("m.mp3p3", t, "") == "mp3";
    assert ".m.mp3p3"[2] != t[2] && ".m.mp3p3"[1..] == "m.mp3p3";
  }

  /** The inner occurrence is removed and the "p3" after it is kept. */
  lemma ReplaceLeavesTail()
    ensures ReplaceLiteral(".mp3p3", ".mp3", "") == "p3"
  {
    var t := ".mp3";
    assert ReplaceLiteral("3", t, "") == "3";
    assert ReplaceLiteral("p3", t, "") == "p3";
    assert StartsWith(".mp3p3", t) && ".mp3p3"[4..] == "p3";
  }

  /** How the cover stage went after the audio download succeeded: no
      thumbnail was found, or ffmpeg ran with this exit code. */
  datatype CoverStep = NoThumbnail | Embedded(ffmpegExit: int)

  /** The method's return value and, when ffmpeg succeeded, where the mp3 was
      copied to. */
  datatype ThumbnailDownload = ThumbnailDownload(ok: bool, savedTo: Option<string>)

  /** tempFile.getAbsolutePath(): the temp name inside "temp_mp3" next to the
      output file (a relative "temp_mp3" when the output path has no parent). */
  function TempPath(outputPath: string, millis: int): (r: string)
    ensures EndsWith(r, "temp_mp3/" + TempFileName(outputPath, millis))
    ensures ParentOf(outputPath).Some? ==> StartsWith(r, ParentOf(outputPath).value + "/")
  {
    var tail := "temp_mp3/" + TempFileName(outputPath, millis);
    match ParentOf(outputPath)
    case None => assert tail[|tail| - |tail|..] == tail; tail
    case Some(p) =>
      Framed(p + "/", [], tail);
      assert p + "/" + [] + tail == p + "/" + tail;
      p + "/" + tail
  }

  /** downloadAudioWithThumbnail, given the audio run and the cover stage (which
      can also throw: starting yt-dlp or ffmpeg, or the copy). */
  function DownloadAudioWithThumbnail(svc: Service, url: Option<string>, outputPath: Option<string>, millis: int,
                                      audioRun: Result<int>, cover: Result<CoverStep>): (r: Result<ThumbnailDownload>)
    ensures r.Ok? && !r.value.ok <==>
              !(Usable(url) && Usable(outputPath))
              || DownloadAudio(svc, url, Some(TempPath(outputPath.value, millis)), audioRun) == Ok(false)
    ensures r.Ok? && r.value.savedTo.Some? ==>
              r.value.ok && r.value.savedTo.value == WORK_DIR + "/" + BaseNameOf(outputPath.value) + ".mp3"
    ensures Usable(url) && Usable(outputPath)
            && DownloadAudio(svc, url, Some(TempPath(outputPath.value, millis)), audioRun) == Ok(true) ==>
              && (cover.Thrown? ==> r.Thrown?)
              && (cover.Ok? ==> r.Ok? && r.value.ok)
              && (cover.Ok? ==> (r.value.savedTo.Some? <==> cover.value == Embedded(0)))
    ensures (Usable(url) && Usable(outputPath)
             && DownloadAudio(svc, url, Some(TempPath(outputPath.value, millis)), audioRun).Thrown?) ==> r.Thrown?
  {
    if !(Usable(url) && Usable(outputPath)) then Ok(ThumbnailDownload(false, None))
    else
      var temp := TempPath(outputPath.value, millis);
      match DownloadAudio(svc, url, Some(temp), audioRun)
      case Thrown(e) => Thrown(e)
      case Ok(false) => Ok(ThumbnailDownload(false, None))
      case Ok(true) =>
        match cover
        case Thrown(e) => Thrown(e)
        case Ok(NoThumbnail) => Ok(ThumbnailDownload(true, None))
        case Ok(Embedded(code)) =>
          Ok(ThumbnailDownload(true, if code == 0 then Some(WORK_DIR + "/" + BaseNameOf(outputPath.value) + ".mp3") else None))
  }

  lemma CoverNeverDecides(svc: Service, url: Option<string>, outputPath: Option<string>, millis: int,
                          audioRun: Result<int>, c1: CoverStep, c2: CoverStep)
    requires DownloadAudioWithThumbnail(svc, url, outputPath, millis, audioRun, Ok(c1)).Ok?
    ensures DownloadAudioWithThumbnail(svc, url, outputPath, millis, audioRun, Ok(c2)).Ok?
    ensures DownloadAudioWithThumbnail(svc, url, outputPath, millis, audioRun, Ok(c1)).value.ok
         == DownloadAudioWithThumbnail(svc, url, outputPath, millis, audioRun, Ok(c2)).value.ok
  {
    var r1 := DownloadAudioWithThumbnail(svc, url, outputPath, millis, audioRun, Ok(c1));
    var r2 := DownloadAudioWithThumbnail(svc, url, outputPath, millis, audioRun, Ok(c2));
    if Usable(url) && Usable(outputPath) {
      var run := DownloadAudio(svc, url, Some(TempPath(outputPath.value, millis)), audioRun);
      if run == Ok(true) {
        assert r1.value.ok && r2.Ok? && r2.value.ok;
      } else {
        assert run == Ok(false);
        assert !r1.value.ok && r2.Ok? && !r2.value.ok;
      }
    }
  }

  // ---------------------------------------------------------------- getVideoInfo

  /** A line getVideoInfo takes: non-blank after trim() and not a yt-dlp warning. */
  predicate IsInfoLine(line: string) {
    !TrimsToEmpty(line) && !StartsWith(line, "WARNING")
  }

  /** Index of the first info line at or after k, or |lines|. */
  function NextInfoLine(lines: seq<string>, k: nat): (j: nat)
    requires k <= |lines|
    ensures k <= j <= |lines|
    ensures j < |lines| ==> IsInfoLine(lines[j])
    ensures forall m :: k <= m < j ==> !IsInfoLine(lines[m])
    decreases |lines| - k
  {
    if k == |lines| || IsInfoLine(lines[k]) then k else NextInfoLine(lines, k + 1)
  }

  /** The uploader and the title yt-dlp printed: the first and the second info
      line, trimmed, when there are that many. */
  function InfoLines(lines: seq<string>): (r: (Option<string>, Option<string>))
    ensures r.1.Some? ==> r.0.Some?
  {
    var c := NextInfoLine(lines, 0);
    if c == |lines| then (None, None)
    else
      var t := NextInfoLine(lines, c + 1);
      (Some(Trim(lines[c])), if t == |lines| then None else Some(Trim(lines[t])))
  }

  /** getVideoInfo's result with the defaults filled in. */
  function VideoInfo(lines: seq<string>): (string, string) {
    var (c, t) := InfoLines(lines);
    (if c.Some? then c.value else "channel", if t.Some? then t.value else "video")
  }

  /** The read loop of getVideoInfo: the channel is the first info line, the
      title the next one, and reading stops there. */
  method ReadInfoLines(lines: seq<string>) returns (channel: Option<string>, title: Option<string>)
    ensures (channel, title) == InfoLines(lines)
  {
    var c := NextInfoLine(lines, 0);
    channel, title := None, None;
    var i := 0;
    while i < |lines|
      invariant 0 <= i <= |lines|
      invariant channel.None? <==> i <= c
      invariant channel.Some? ==> c < |lines| && channel == Some(Trim(lines[c]))
      invariant title.None?
      invariant channel.Some? ==> forall m :: c < m < i ==> !IsInfoLine(lines[m])
    {
      var line := lines[i];
      if channel.None? && IsInfoLine(line) {
        channel := Some(Trim(line));
        i := i + 1;
        continue;
      }
      if channel.Some? && title.None? && IsInfoLine(line) {
        title := Some(Trim(line));
        assert NextInfoLine(lines, c + 1) == i;
        return;
      }
      i := i + 1;
    }
    assert channel.Some? ==> NextInfoLine(lines, c + 1) == |lines|;
  }

  /** getVideoInfo, given what starting yt-dlp gave: its output lines, or the
      exception. A null or blank url gives the defaults without running anything. */
  method GetVideoInfo(svc: Service, url: Option<string>, output: Result<seq<string>>) returns (r: Result<(string, string)>)
    ensures !Usable(url) ==> r == Ok(("channel", "video"))
    ensures Usable(url) && output.Thrown? ==> r == Thrown(output.error)
    ensures Usable(url) && output.Ok? ==> r == Ok(VideoInfo(output.value))
  {
    if !Usable(url) {
      return Ok(("channel", "video"));
    }
    if output.Thrown? {
      return Thrown(output.error);
    }
    var channel, title := ReadInfoLines(output.value);
    r := Ok((if channel.Some? then channel.value else "channel", if title.Some? then title.value else "video"));
  }

  /** The channel is a line yt-dlp printed, after the lines skipped before it,
      and it is never a warning; with fewer than two info lines the title is
      the default. */
  lemma VideoInfoSkipsWarnings(lines: seq<string>)
    ensures var c := NextInfoLine(lines, 0);
      (c < |lines| ==> VideoInfo(lines).0 == Trim(lines[c]) && !StartsWith(lines[c], "WARNING"))
      && (c == |lines| ==> VideoInfo(lines) == ("channel", "video"))
      && forall m :: 0 <= m < c ==> TrimsToEmpty(lines[m]) || StartsWith(lines[m], "WARNING")
  {
  }

  // ---------------------------------------------------------------- size and duration probes

  /** One `--dump-json --no-download` run: its exit code, its output lines
      joined without separators, and, when the trimmed output parses as a JSON
      object, the fields optLong can read as numbers (None when the parse throws). */
  datatype JsonRun = JsonRun(exitCode: int, output: string, fields: Option<map<string, int>>)

  /** JSONObject.optLong(key, default). */
  function OptLong(fields: map<string, int>, key: string, default: int): (r: int)
    ensures key in fields ==> r == fields[key]
    ensures key !in fields ==> r == default
  {
    if key in fields then fields[key] else default
  }

  /** The output passes the checks before parsing: exit code 0, and trimmed
      output non-empty and starting with '{'. */
  predicate Readable(run: JsonRun) {
    run.exitCode == 0 && var json := Trim(run.output); json != [] && StartsWith(json, "{")
  }

  const UNKNOWN: (int, int) := (-1, -1)

  /** getAudioOnlySize: the audio format's size and the duration, but only when
      that size is positive. */
  function AudioOnlySize(run: JsonRun): (r: (int, int))
    ensures r.0 > 0 || r == UNKNOWN
    ensures r.0 > 0 <==> Readable(run) && run.fields.Some? && "filesize" in run.fields.value
                          && run.fields.value["filesize"] > 0
    ensures r.0 > 0 ==> r == (run.fields.value["filesize"], OptLong(run.fields.value, "duration", -1))
  {
    if !Readable(run) || run.fields.None? then UNKNOWN
    else
      var f := run.fields.value;
      var size := OptLong(f, "filesize", -1);
      if size > 0 then (size, OptLong(f, "duration", -1)) else UNKNOWN
  }

  /** The general probe of getVideoSizeAndDuration: filesize, else
      filesize_approx, else -1; duration, else -1. */
  function GeneralSize(run: JsonRun): (r: (int, int))
    ensures !Readable(run) || run.fields.None? ==> r == UNKNOWN
    ensures Readable(run) && run.fields.Some? ==> var f := run.fields.value;
      r.1 == OptLong(f, "duration", -1)
      && r.0 == (if "filesize" in f then f["filesize"] else if "filesize_approx" in f then f["filesize_approx"] else -1)
  {
    if !Readable(run) || run.fields.None? then UNKNOWN
    else
      var f := run.fields.value;
      (OptLong(f, "filesize", OptLong(f, "filesize_approx", -1)), OptLong(f, "duration", -1))
  }

  /** getVideoSizeAndDuration: the audio-only probe first, the general probe
      only when the first found no positive size. Either run can throw. */
  function VideoSizeAndDuration(url: Option<string>, audio: Result<JsonRun>, general: Result<JsonRun>): (r: Result<(int, int)>)
    ensures !Usable(url) ==> r == Ok(UNKNOWN)
    ensures Usable(url) && audio.Ok? && AudioOnlySize(audio.value).0 > 0 ==> r == Ok(AudioOnlySize(audio.value))
    ensures Usable(url) && audio.Ok? && AudioOnlySize(audio.value).0 <= 0 && general.Ok? ==> r == Ok(GeneralSize(general.value))
  {
    if !Usable(url) then Ok(UNKNOWN)
    else match audio
      case Thrown(e) => Thrown(e)
      case Ok(a) =>
        if AudioOnlySize(a).0 > 0 then Ok(AudioOnlySize(a))
        else match general
          case Thrown(e) => Thrown(e)
          case Ok(g) => Ok(GeneralSize(g))
  }

  /** The audio-only answer is returned exactly when its size is positive;
      otherwise the answer is the general probe's. */
  lemma AudioProbePreferred(url: string, a: JsonRun, g: JsonRun)
    requires Usable(Some(url))
    ensures VideoSizeAndDuration(Some(url), Ok(a), Ok(g)) == Ok(AudioOnlySize(a)) <==>
              AudioOnlySize(a).0 > 0 || AudioOnlySize(a) == GeneralSize(g)
  {
  }

  /** A failed run or unreadable output makes the whole probe unknown. */
  lemma FailedProbesUnknown(url: string, a: JsonRun, g: JsonRun)
    requires Usable(Some(url)) && !Readable(a) && !Readable(g)
    ensures VideoSizeAndDuration(Some(url), Ok(a), Ok(g)) == Ok(UNKNOWN)
  {
  }

  // ---------------------------------------------------------------- duration, limits, deletion

  /** getAudioDurationSeconds, given ffprobe's first output line (None at end
      of output) or the exception, and Double.parseDouble as a partial map. */
  function AudioDurationSeconds(filePath: Option<string>, firstLine: Result<Option<string>>,
                                parseDouble: string -> Option<real>): (r: Result<real>)
    ensures !Usable(filePath) ==> r == Ok(-1.0)
    ensures Usable(filePath) && firstLine == Ok(None) ==> r == Ok(-1.0)
    ensures Usable(filePath) && firstLine.Ok? && firstLine.value.Some? ==>
              r == Ok(if parseDouble(firstLine.value.value).Some? then parseDouble(firstLine.value.value).value else -1.0)
  {
    if !Usable(filePath) then Ok(-1.0)
    else match firstLine
      case Thrown(e) => Thrown(e)
      case Ok(None) => Ok(-1.0)
      case Ok(Some(line)) =>
        var d := parseDouble(line);
        if d.Some? then Ok(d.value) else Ok(-1.0)
  }

  /** isFileSizeWithinLimit: the Utils test against this service's limit. */
  function FileWithinLimit(svc: Service, file: Utils.FileProbe): (r: bool)
    ensures r <==> file.Present? && 0 < file.length <= svc.maxFileSize
  {
    Utils.IsFileSizeWithinLimit(file, svc.maxFileSize)
  }

  /** isDurationWithinLimit: the Utils test against this service's limit. */
  function DurationWithinLimit(svc: Service, durationSeconds: real): (r: bool)
    ensures svc.maxDurationMinutes > 0.0 && durationSeconds >= 0.0 ==>
              (r <==> durationSeconds <= svc.maxDurationMinutes * 60.0)
    ensures svc.maxDurationMinutes < 0.0 ==> r
  {
    Utils.IsDurationWithinLimit(durationSeconds, svc.maxDurationMinutes)
  }

  /** deleteFileIfExists: the Utils operation. */
  method DeleteFileIfExists(fs: Utils.FileSystem, file: Option<string>)
    modifies fs
    ensures file.None? ==> fs.files == old(fs.files)
    ensures file.Some? ==> fs.files == old(fs.files) - {file.value}
  {
    fs.DeleteFileIfExists(file);
  }
}
