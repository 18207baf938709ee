/** CommandHandler.processDownloadWithStatus: the decisions the bot takes for
    one link. Every tool run is an input (the size/duration probe, yt-dlp's
    metadata dump, getVideoInfo, the curl page, the download, the file it
    left and the duration ffprobe reads); the bot's work directory is a
    Utils.FileSystem the method deletes from. */
module ProcessDownload {
  import opened Text
  import Regex
  import Utils
  import YtDlpService
  import FileNameSanitizer
  import CurlTitle

  /** How the chain ends for one link. Every case but Sent makes the method
      return false after sending the matching notice. */
  datatype Outcome =
    | TooLong                    // pre-check: duration over the limit
    | TooLarge                   // pre-check: size over the limit
    | NoMetadata                 // yt-dlp printed nothing but blanks
    | DownloadFailed             // the download said no and left no file
    | OverDurationLimit          // the downloaded audio is too long
    | EmptyFile                  // the downloaded file has 0 bytes
    | FileTooLarge(size: nat)    // the downloaded file is over the size limit
    | FileNotFound               // no file after a download that reported success
    | Crashed(error: Exception)  // an exception reached the outer catch blocks
    | Sent(file: string, caption: string)

  // ---------------------------------------------------------------- phase 1: pre-check and metadata

  /** The size/duration pre-check on getVideoSizeAndDuration's {size, duration}:
      duration first, then size; an unknown (-1 or 0) value never rejects. */
  function Precheck(svc: YtDlpService.Service, sizeAndDuration: (int, int)): (r: Option<Outcome>)
    ensures r == Some(TooLong) <==>
      sizeAndDuration.1 > 0 && sizeAndDuration.1 as real > svc.maxDurationMinutes * 60.0
    ensures r == Some(TooLarge) <==>
      !(sizeAndDuration.1 > 0 && sizeAndDuration.1 as real > svc.maxDurationMinutes * 60.0)
      && sizeAndDuration.0 > 0 && sizeAndDuration.0 > svc.maxFileSize
    ensures r.None? || r == Some(TooLong) || r == Some(TooLarge)
  {
    var (size, duration) := sizeAndDuration;
    if duration > 0 && duration as real > svc.maxDurationMinutes * 60.0 then Some(TooLong)
    else if size > 0 && size > svc.maxFileSize then Some(TooLarge)
    else None
  }

  /** The probe's "unknown" answer passes the pre-check whatever the limits. */
  lemma UnknownPassesPrecheck(svc: YtDlpService.Service)
    ensures Precheck(svc, YtDlpService.UNKNOWN) == None
  {
  }

  /** Raising both limits never turns a passing video into a rejected one. */
  lemma PrecheckMonotone(svc: YtDlpService.Service, wider: YtDlpService.Service, sd: (int, int))
    requires svc.maxFileSize <= wider.maxFileSize && svc.maxDurationMinutes <= wider.maxDurationMinutes
    requires Precheck(svc, sd).None?
    ensures Precheck(wider, sd).None?
  {
  }

  /** What the joined `--dump-json` output looks like: blank, not JSON (the
      bot warns and goes on), or JSON. */
  datatype Metadata = BlankOutput | NotJson | Json

  function ReadMetadata(json: string): (r: Metadata)
    ensures r == BlankOutput <==> IsBlank(json)
    ensures r == Json <==> !IsBlank(json) && StartsWith(Trim(json), "{")
  {
    if IsBlank(json) then BlankOutput
    else if StartsWith(Trim(json), "{") then Json
    else NotJson
  }

  /** The first try block: a rejection, or permission to go on (with or
      without the "metadata could not be parsed" warning). Any exception in
      it is logged and the chain goes on. */
  datatype Phase1 = Stop(outcome: Outcome) | Proceed(warned: bool)

  function FirstPhase(svc: YtDlpService.Service, sizeAndDuration: Result<(int, int)>, metadata: Result<string>): (r: Phase1)
    ensures r.Stop? ==> r.outcome == TooLong || r.outcome == TooLarge || r.outcome == NoMetadata
    ensures r.Stop? && r.outcome != NoMetadata ==> sizeAndDuration.Ok? && Precheck(svc, sizeAndDuration.value) == Some(r.outcome)
    ensures r == Stop(NoMetadata) <==>
      sizeAndDuration.Ok? && Precheck(svc, sizeAndDuration.value).None? && metadata.Ok? && IsBlank(metadata.value)
    ensures r == Proceed(true) <==>
      sizeAndDuration.Ok? && Precheck(svc, sizeAndDuration.value).None? && metadata.Ok? && ReadMetadata(metadata.value) == NotJson
  {
    match sizeAndDuration
    case Thrown(_) => Proceed(false)
    case Ok(sd) =>
      var pre := Precheck(svc, sd);
      if pre.Some? then Stop(pre.value)
      else match metadata
        case Thrown(_) => Proceed(false)
        case Ok(json) =>
          match ReadMetadata(json)
          case BlankOutput => Stop(NoMetadata)
          case NotJson => Proceed(true)
          case Json => Proceed(false)
  }

  /** A failing probe or metadata run never stops the chain. */
  lemma ExceptionsNeverStop(svc: YtDlpService.Service, sd: Result<(int, int)>, metadata: Result<string>)
    requires sd.Thrown? || (Precheck(svc, sd.value).None? && metadata.Thrown?)
    ensures FirstPhase(svc, sd, metadata) == Proceed(false)
  {
  }

  // ---------------------------------------------------------------- names

  /** The class `[=\/\:*?"<>|]` of the fallback trigger. */
  predicate IsForbiddenChar(c: char) {
    c == '=' || c == '/' || c == ':' || c == '*' || c == '?' || c == '"' || c == '<' || c == '>' || c == '|'
  }

  /** `s.matches(".*[=\/\:*?\"<>|].*")`: the whole text must match, and `.`
      does not match a line terminator. */
  predicate MatchesForbidden(s: string) {
    (forall k :: 0 <= k < |s| ==> !Regex.IsLineTerminator(s[k]))
    && exists k :: 0 <= k < |s| && IsForbiddenChar(s[k])
  }

  /** A sanitized name that sends the bot to the curl fallback. */
  predicate Suspicious(name: Option<string>) {
    name.None? || IsBlank(name.value) || MatchesForbidden(name.value) || Contains(name.value, "http")
  }

  /** The names the file is built from, whether the curl fallback supplied
      them, and curl's raw title when it did. */
  datatype Names = Names(channel: Option<string>, title: string, fallbackUsed: bool, curlTitle: Option<string>)

  /** Steps 1 and 2: sanitize yt-dlp's channel and title; when either looks
      wrong, ask curl, whose non-blank title (and author, when non-blank)
      replaces them, and otherwise fall back to "video" and no channel. */
  function ChooseNames(sanitize: string -> string, info: (string, string), page: Result<string>): (r: Names)
    ensures !Suspicious(Some(sanitize(info.0))) && !Suspicious(Some(sanitize(info.1))) ==>
      r == Names(Some(sanitize(info.0)), sanitize(info.1), false, None)
    ensures r.fallbackUsed <==>
      (Suspicious(Some(sanitize(info.0))) || Suspicious(Some(sanitize(info.1))))
      && CurlTitle.TitleAndAuthor(page).0.Some? && !IsBlank(CurlTitle.TitleAndAuthor(page).0.value)
    ensures r.fallbackUsed ==>
      r.curlTitle == CurlTitle.TitleAndAuthor(page).0 && r.title == sanitize(r.curlTitle.value)
    ensures r.fallbackUsed && r.channel.Some? ==>
      var author := CurlTitle.TitleAndAuthor(page).1;
      author.Some? && !IsBlank(author.value) && r.channel.value == sanitize(author.value)
    ensures (Suspicious(Some(sanitize(info.0))) || Suspicious(Some(sanitize(info.1)))) && !r.fallbackUsed ==>
      r.title == "video" && r.channel.None?
  {
    var channel := sanitize(info.0);
    var title := sanitize(info.1);
    if !(Suspicious(Some(channel)) || Suspicious(Some(title))) then Names(Some(channel), title, false, None)
    else
      var (rawTitle, rawAuthor) := CurlTitle.TitleAndAuthor(page);
      if rawTitle.Some? && !IsBlank(rawTitle.value) then
        var author := if rawAuthor.Some? && !IsBlank(rawAuthor.value) then Some(sanitize(rawAuthor.value)) else None;
        Names(author, sanitize(rawTitle.value), true, rawTitle)
      else Names(None, "video", false, rawTitle)
  }

  /** A text that ends with a non-blank text is not blank. */
  lemma EndsWithNonBlank(s: string, t: string)
    requires EndsWith(s, t) && !IsBlank(t)
    ensures !IsBlank(s)
  {
    var k :| 0 <= k < |t| && !IsJavaWhitespace(t[k]);
    assert s[|s| - |t| + k] == t[k];
  }

  /** Step 3: `channel - title` when the channel is non-blank (composeFileName),
      else the title; "audio" when that is blank. */
  function BaseFileName(channel: Option<string>, title: string): (r: string)
    ensures !IsBlank(r)
    ensures !IsBlank(title) ==> EndsWith(r, title)
    ensures (channel.None? || IsBlank(channel.value)) ==> r == (if IsBlank(title) then "audio" else title)
  {
    var base := if channel.Some? && !IsBlank(channel.value) then FileNameSanitizer.ComposeFileName(channel, Some(title)).value else title;
    assert !IsBlank(title) ==> !IsBlank(base) by {
      if !IsBlank(title) { EndsWithNonBlank(base, title); }
    }
    assert !IsBlank("audio") by { assert !IsJavaWhitespace("audio"[0]); }
    if IsBlank(base) then "audio" else base
  }

  /** The saved file: `new File(saveDir, base + ".mp3")`. */
  function FinalFile(names: Names): string {
    YtDlpService.WORK_DIR + "/" + BaseFileName(names.channel, names.title) + ".mp3"
  }

  // ---------------------------------------------------------------- caption

  const CURL_NOTE: string := "\n\nTitle taken from <title> tag of YouTube page (curl fallback)"

  lemma OccursInMiddle(a: string, b: string, c: string)
    ensures Contains(a + b + c, b)
  {
    assert (a + b + c)[|a|..|a| + |b|] == b;
    assert OccursAt(a + b + c, b, |a|);
  }

  /** Where the pieces of a text built as h + b + m + a + l + u + n can be found. */
  lemma CaptionPieces(h: string, b: string, m: string, a: string, l: string, u: string, n: string)
    ensures var r := h + b + m + a + l + u + n;
      Contains(r, b) && Contains(r, a) && Contains(r, u) && EndsWith(r, n) && EndsWith(r, l + u + n)
  {
    var r := h + b + m + a + l + u + n;
    assert r == h + b + (m + a + l + u + n);
    OccursInMiddle(h, b, m + a + l + u + n);
    assert r == (h + b + m) + a + (l + u + n);
    OccursInMiddle(h + b + m, a, l + u + n);
    assert r == (h + b + m + a + l) + u + n;
    OccursInMiddle(h + b + m + a + l, u, n);
    assert r[|r| - |n|..] == n;
    assert r == (h + b + m + a) + (l + u + n);
    assert r[|r| - |l + u + n|..] == l + u + n;
  }

  const LINK_LABEL: string := "\n\U{1F517} YouTube: "

  /** The message sent with the audio. */
  function Caption(index: int, total: int, before: string, after: string, url: string, fallbackUsed: bool): (r: string)
    ensures Contains(r, before) && Contains(r, after) && Contains(r, url)
    ensures fallbackUsed ==> EndsWith(r, CURL_NOTE)
    ensures !fallbackUsed ==> EndsWith(r, LINK_LABEL + url)
  {
    var head := "[SUCCESS \U{2705}] Audio ready! \U{1F3B6} (" + IntToString(index) + "/" + IntToString(total) + ")\n"
      + "\U{1F3B5} Song renamed\n" + "\U{1F522} Before: ";
    var mid := "\n" + "\U{1F501} After:  ";
    var note := if fallbackUsed then CURL_NOTE else "";
    CaptionPieces(head, before, mid, after, LINK_LABEL, url, note);
    assert LINK_LABEL + url + "" == LINK_LABEL + url;
    head + before + mid + after + LINK_LABEL + url + note
  }

  /** The "Before" name: curl's raw title when the fallback supplied the names,
      else yt-dlp's raw title (never null here, so "(unknown)" cannot occur). */
  function BeforeName(names: Names, info: (string, string)): string {
    (if names.fallbackUsed && names.curlTitle.Some? && !IsBlank(names.curlTitle.value) then names.curlTitle.value else info.1) + ".mp3"
  }

  // ---------------------------------------------------------------- the chain

  /** Everything the outside world answers during one run. */
  datatype Probes = Probes(
    sizeAndDuration: Result<(int, int)>,   // getVideoSizeAndDuration
    metadata: Result<string>,              // joined output of `yt-dlp --dump-json`
    info: Result<(string, string)>,        // getVideoInfo: channel, title
    page: Result<string>,                  // the page curl fetched
    download: Result<bool>,                // downloadAudioWithThumbnail
    fileAfter: Utils.FileProbe,            // the final file after the download
    durationAfter: Result<real>)           // getAudioDurationSeconds

  /** Step 5's size failure, classified by the file's length (-1 when absent). */
  function SizeFailure(file: Utils.FileProbe): (r: Outcome)
    ensures r == EmptyFile <==> file == Utils.Present(0)
    ensures r == FileNotFound <==> file.NoFile?
    ensures r.FileTooLarge? <==> file.Present? && file.length > 0
  {
    match file
    case NoFile => FileNotFound
    case Present(n) => if n == 0 then EmptyFile else FileTooLarge(n)
  }

  /** The outcome of the second try block, once phase 1 let the chain go on. */
  function SecondPhase(svc: YtDlpService.Service, sanitize: string -> string, url: string, index: int, total: int, pr: Probes): Outcome
  {
    match pr.info
    case Thrown(e) => Crashed(e)
    case Ok(info) =>
      var names := ChooseNames(sanitize, info, pr.page);
      match pr.download
      case Thrown(e) => Crashed(e)
      case Ok(success) =>
        if !success && pr.fileAfter.NoFile? then DownloadFailed
        else match pr.durationAfter
          case Thrown(e) => Crashed(e)
          case Ok(d) =>
            if !YtDlpService.DurationWithinLimit(svc, d) then OverDurationLimit
            else if !YtDlpService.FileWithinLimit(svc, pr.fileAfter) then SizeFailure(pr.fileAfter)
            else
              var after := BaseFileName(names.channel, names.title) + ".mp3";
              Sent(FinalFile(names), Caption(index, total, BeforeName(names, info), after, url, names.fallbackUsed))
  }

  /** processDownloadWithStatus's outcome. */
  function Decide(svc: YtDlpService.Service, sanitize: string -> string, url: string, index: int, total: int, pr: Probes): Outcome
  {
    var p1 := FirstPhase(svc, pr.sizeAndDuration, pr.metadata);
    if p1.Stop? then p1.outcome else SecondPhase(svc, sanitize, url, index, total, pr)
  }

  /** True from the download is trusted even when no file exists: the chain
      then ends in the duration or size checks, never in DownloadFailed. */
  lemma TrueDownloadSkipsExistenceCheck(svc: YtDlpService.Service, sanitize: string -> string, url: string,
                                        index: int, total: int, pr: Probes)
    requires FirstPhase(svc, pr.sizeAndDuration, pr.metadata).Proceed? && pr.info.Ok?
    requires pr.download == Ok(true) && pr.fileAfter.NoFile? && pr.durationAfter.Ok?
    ensures Decide(svc, sanitize, url, index, total, pr) ==
      (if YtDlpService.DurationWithinLimit(svc, pr.durationAfter.value) then FileNotFound else OverDurationLimit)
  {
  }

  /** Only a file of 1..maxFileSize bytes within the duration limit is sent. */
  lemma SentOnlyWithinLimits(svc: YtDlpService.Service, sanitize: string -> string, url: string,
                             index: int, total: int, pr: Probes)
    requires Decide(svc, sanitize, url, index, total, pr).Sent?
    ensures pr.fileAfter.Present? && 0 < pr.fileAfter.length <= svc.maxFileSize
    ensures pr.durationAfter.Ok? && YtDlpService.DurationWithinLimit(svc, pr.durationAfter.value)
    ensures pr.info.Ok? && Decide(svc, sanitize, url, index, total, pr).file == FinalFile(ChooseNames(sanitize, pr.info.value, pr.page))
  {
  }

  /** Whether an outcome comes after the download left its file behind. */
  predicate AfterDownload(o: Outcome) {
    o.DownloadFailed? || o.OverDurationLimit? || o.EmptyFile? || o.FileTooLarge? || o.FileNotFound? || o.Sent?
  }

  /** The second try block, changing the work directory: the old file goes
      first, the download leaves its file (when the probe finds one), and
      every failure after the download deletes it again. */
  method SecondPhaseRun(fs: Utils.FileSystem, svc: YtDlpService.Service, sanitize: string -> string, url: string,
                        index: int, total: int, pr: Probes) returns (outcome: Outcome)
    modifies fs
    ensures outcome == SecondPhase(svc, sanitize, url, index, total, pr)
    ensures pr.info.Thrown? ==> fs.files == old(fs.files)
    ensures pr.info.Ok? ==> var file := FinalFile(ChooseNames(sanitize, pr.info.value, pr.page));
      fs.files - {file} == old(fs.files) - {file}
      && (file in fs.files <==> pr.download.Ok? && pr.fileAfter.Present? && (outcome.Sent? || outcome.Crashed?))
  {
    if pr.info.Thrown? {
      return Crashed(pr.info.error);
    }
    var info := pr.info.value;
    var names := ChooseNames(sanitize, info, pr.page);
    var file := FinalFile(names);
    fs.DeleteFileIfExists(Some(file));
    if pr.download.Thrown? {
      return Crashed(pr.download.error);
    }
    if pr.fileAfter.Present? {
      fs.files := fs.files + {file};
    }
    if !pr.download.value && pr.fileAfter.NoFile? {
      return DownloadFailed;
    }
    if pr.durationAfter.Thrown? {
      return Crashed(pr.durationAfter.error);
    }
    if !YtDlpService.DurationWithinLimit(svc, pr.durationAfter.value) {
      fs.DeleteFileIfExists(Some(file));
      return OverDurationLimit;
    }
    if !YtDlpService.FileWithinLimit(svc, pr.fileAfter) {
      outcome := SizeFailure(pr.fileAfter);
      fs.DeleteFileIfExists(Some(file));
      return;
    }
    var after := BaseFileName(names.channel, names.title) + ".mp3";
    outcome := Sent(file, Caption(index, total, BeforeName(names, info), after, url, names.fallbackUsed));
  }

  /** processDownloadWithStatus: true exactly when the audio was sent; a stop
      in phase 1 touches no file. The top level passes
      FileNameSanitizer.SanitizedText as sanitize. */
  method ProcessDownloadWithStatus(fs: Utils.FileSystem, svc: YtDlpService.Service, sanitize: string -> string,
                                   url: string, index: int, total: int, pr: Probes) returns (ok: bool, outcome: Outcome)
    modifies fs
    ensures outcome == Decide(svc, sanitize, url, index, total, pr)
    ensures ok <==> outcome.Sent?
    ensures FirstPhase(svc, pr.sizeAndDuration, pr.metadata).Stop? ==> fs.files == old(fs.files)
    ensures AfterDownload(outcome) && !outcome.Sent? ==>
      pr.info.Ok? && FinalFile(ChooseNames(sanitize, pr.info.value, pr.page)) !in fs.files
  {
    var p1 := FirstPhase(svc, pr.sizeAndDuration, pr.metadata);
    if p1.Stop? {
      return false, p1.outcome;
    }
    outcome := SecondPhaseRun(fs, svc, sanitize, url, index, total, pr);
    ok := outcome.Sent?;
  }

  const ERROR_TAG: string := "[ERROR \U{2622}\U{FE0F}\U{2623}\U{FE0F}] "

  /** What the notice says went wrong, by the catch block that caught it. */
  function CrashReason(e: Exception): string {
    match e
    case IOError(_, _) => "File or disk access error: "
    case InterruptedError(_) => "Operation was interrupted: "
    case OtherError(_, _) => "An unexpected error occurred: "
  }

  /** The emoji closing the notice, by the catch block that caught it. */
  function CrashEmoji(e: Exception): string {
    match e
    case IOError(_, _) => " \U{1F4BE}"
    case InterruptedError(_) => " \U{23F9}\U{FE0F}"
    case OtherError(_, _) => " \U{274C}"
  }

  /** The notice for an exception that reached the outer catch blocks: the
      error tag and the reason, then the position in the batch and the URL,
      then the emoji. */
  function CrashNotice(e: Exception, index: int, total: int, url: string): (r: string)
    ensures StartsWith(r, ERROR_TAG + CrashReason(e))
    ensures Contains(r, "(" + IntToString(index) + "/" + IntToString(total) + ")\nURL: " + url)
    ensures EndsWith(r, CrashEmoji(e))
  {
    var head := ERROR_TAG + CrashReason(e);
    var place := "(" + IntToString(index) + "/" + IntToString(total) + ")\nURL: " + url;
    Framed(head, place, CrashEmoji(e));
    OccursInMiddle(head, place, CrashEmoji(e));
    head + place + CrashEmoji(e)
  }

  /** The two exceptions are caught by the same catch block. */
  predicate SameCatch(e1: Exception, e2: Exception) {
    e1.IOError? == e2.IOError? && e1.InterruptedError? == e2.InterruptedError?
  }

  /** Two notices for the same link are equal exactly when the exceptions
      were caught by the same catch block. */
  lemma CrashNoticeTellsKind(e1: Exception, e2: Exception, index: int, total: int, url: string)
    ensures CrashNotice(e1, index, total, url) == CrashNotice(e2, index, total, url) <==> SameCatch(e1, e2)
  {
    if !SameCatch(e1, e2) {
      ReasonFollowsTag(e1, index, total, url);
      ReasonFollowsTag(e2, index, total, url);
    }
  }

  /** The character after the error tag is the first letter of the reason,
      which differs between the three catch blocks. */
  lemma ReasonFollowsTag(e: Exception, index: int, total: int, url: string)
    ensures |CrashNotice(e, index, total, url)| > |ERROR_TAG|
    ensures CrashNotice(e, index, total, url)[|ERROR_TAG|] == (match e
              case IOError(_, _) => 'F'
              case InterruptedError(_) => 'O'
              case OtherError(_, _) => 'A')
  {
    var r := CrashNotice(e, index, total, url);
    var head := ERROR_TAG + CrashReason(e);
    assert r[..|head|][|ERROR_TAG|] == head[|ERROR_TAG|] == CrashReason(e)[0];
  }
}
