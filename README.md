# YouTube-MP3 bot core, modelled in Dafny

This project models the decision logic of a pair of Telegram bots.
The main one is the YouTube-MP3 downloader.
It finds YouTube links in a chat message and runs each one through yt-dlp.
It names the resulting mp3 after the channel and title, then sends it back.
The second bot converts .webm and .gif documents to .mp4.
Both read their settings through a shared configuration base class.

Every external effect is a value the model receives:

- the Telegram API;
- yt-dlp, ffmpeg, ffprobe and curl;
- the clock, the random draw and the process environment.

What remains is string and integer decision code, and that is what is modelled and proved.
Code that mutates state step by step is modelled as methods with loop invariants, proved against specification functions:

- the URL extraction loop;
- the batch slicing and the outcome tallies;
- the summary builder;
- the sanitizer's rule loop and word capitaliser;
- the bulk-rename loop;
- yt-dlp's info-line reader;
- the per-URL chain over a file-system object.

The rest is pure functions, with lemmas about them.

Modules, one per source class:

- `Text`: Java string primitives the code relies on.
  These are trim, isBlank, ASCII case mapping, search, decimal parse and render, and truncating division.
- `Regex`: the sanitizer's replaceAll engine for the pattern shapes its rule table uses.
- `FileNameSanitizer`: the ordered rule table, `sanitize`, `capitalizeWords`, `composeFileName` and `sanitizeAllInDirectory`.
- `Utils`: the YouTube URL matcher, the size and duration limits, and file deletion.
- `YtDlpService`: argument guards, the download command and exit policy, thumbnail download, info parsing, size probes and limit delegates.
- `CommandHandler`: link extraction and deduplication, routing, the estimate, slicing, outcome tallies and the summary.
- `CurlTitle`: `extractTitleAuthorFromCurl`'s three regular expressions.
- `ProcessDownload`: `processDownloadWithStatus`.
- `SanitizerCli`: the command-line argument decoder.
- `ProcessRunner`: `ProcessResult`.
- `ConverterBot`: update routing, the file-type gate, the .mp4 path and the text fallbacks.
- `SharedConfig`: `BaseBotConfig`.
- `DownloaderConfig`: the downloader's `BotConfig`.

## Model

| member | source | states |
|---|---|---|
| Text.Trim | my-personal-telegram-bots/youtube-mp3-downloader/src/main/java/dev/telegrambots/youtubemp3downloader/FileNameSanitizer.java:72 | String.trim: the result is a slice of the input |
| Text.TrimShape | my-personal-telegram-bots/youtube-mp3-downloader/src/main/java/dev/telegrambots/youtubemp3downloader/FileNameSanitizer.java:72 | trim removes exactly the characters <= ' ' at both ends; the result neither starts nor ends with one |
| Text.TrimEmpty | my-personal-telegram-bots/youtube-mp3-downloader/src/main/java/dev/telegrambots/youtubemp3downloader/YtDlpService.java:27 | trim().isEmpty() holds exactly when every character is <= ' ' |
| Text.LowerStr | my-personal-telegram-bots/youtube-mp3-downloader/src/main/java/dev/telegrambots/youtubemp3downloader/FileNameSanitizer.java:72 | toLowerCase keeps the length and maps each character |
| Text.Lower | my-personal-telegram-bots/youtube-mp3-downloader/src/main/java/dev/telegrambots/youtubemp3downloader/FileNameSanitizer.java:72 | toLowerCase on one character leaves no upper-case ASCII letter and keeps non-letters |
| Text.Upper | my-personal-telegram-bots/youtube-mp3-downloader/src/main/java/dev/telegrambots/youtubemp3downloader/FileNameSanitizer.java:95 | toUpperCase on one character leaves no lower-case ASCII letter and keeps non-letters |
| Text.TrimKeepsOut | my-personal-telegram-bots/youtube-mp3-downloader/src/main/java/dev/telegrambots/youtubemp3downloader/FileNameSanitizer.java:72 | trim never introduces a character |
| Text.LastIndexOf | my-personal-telegram-bots/youtube-mp3-downloader/src/main/java/dev/telegrambots/youtubemp3downloader/FileNameSanitizer.java:154 | lastIndexOf('.') is the last position holding the character, or -1 when there is none |
| Text.LastIndexOfIs | my-personal-telegram-bots/youtube-mp3-downloader/src/main/java/dev/telegrambots/youtubemp3downloader/FileNameSanitizer.java:154 | an index holding the character with none after it is what lastIndexOf returns |
| Text.ParseInteger | my-personal-telegram-bots/shared-config/src/main/java/dev/telegrambots/shared/BaseBotConfig.java:66-75 | Long.parseLong / Integer.parseInt succeed only with a value inside the type's range |
| Text.ParseRendered | my-personal-telegram-bots/shared-config/src/main/java/dev/telegrambots/shared/BaseBotConfig.java:102-111 | a number rendered in decimal parses back to itself when it is in range |
| Regex.RunLength | my-personal-telegram-bots/youtube-mp3-downloader/src/main/java/dev/telegrambots/youtubemp3downloader/FileNameSanitizer.java:31-32 | a run pattern such as `_+` or `-{2,}` takes the maximal run of its class |
| Regex.LineEnd | my-personal-telegram-bots/youtube-mp3-downloader/src/main/java/dev/telegrambots/youtubemp3downloader/CommandHandler.java:135 | `.` stops at the first line terminator |
| Regex.ReplaceAllErases | my-personal-telegram-bots/youtube-mp3-downloader/src/main/java/dev/telegrambots/youtubemp3downloader/FileNameSanitizer.java:74 | after replaceAll with a rule that takes a character and does not put it back, that character is gone |
| Regex.TakesCharErases | my-personal-telegram-bots/youtube-mp3-downloader/src/main/java/dev/telegrambots/youtubemp3downloader/FileNameSanitizer.java:74 | a rule whose pattern matches a lone character, and whose replacement lacks it, erases it |
| Regex.ReplaceAllKeepsOut | my-personal-telegram-bots/youtube-mp3-downloader/src/main/java/dev/telegrambots/youtubemp3downloader/FileNameSanitizer.java:74 | replaceAll never introduces a character that is in neither the input nor the replacement |
| Regex.ReplaceAllShortens | my-personal-telegram-bots/youtube-mp3-downloader/src/main/java/dev/telegrambots/youtubemp3downloader/FileNameSanitizer.java:74 | replaceAll with a replacement of at most one character never lengthens the text |
| Regex.ApplyRulesSplit | my-personal-telegram-bots/youtube-mp3-downloader/src/main/java/dev/telegrambots/youtubemp3downloader/FileNameSanitizer.java:73-75 | applying the rule table in order is applying a prefix, then the rest |
| Regex.ApplyRulesErases | my-personal-telegram-bots/youtube-mp3-downloader/src/main/java/dev/telegrambots/youtubemp3downloader/FileNameSanitizer.java:73-75 | a character erased by rule k stays out when no later rule puts it back |
| Regex.ApplyRulesShortens | my-personal-telegram-bots/youtube-mp3-downloader/src/main/java/dev/telegrambots/youtubemp3downloader/FileNameSanitizer.java:73-75 | the whole table, whose replacements are at most one character, never lengthens the text |
| Regex.ApplyRulesKeepsOut | my-personal-telegram-bots/youtube-mp3-downloader/src/main/java/dev/telegrambots/youtubemp3downloader/FileNameSanitizer.java:73-75 | the table never introduces a character that none of its replacements contains |
| Regex.ApplyRulesEmpty | my-personal-telegram-bots/youtube-mp3-downloader/src/main/java/dev/telegrambots/youtubemp3downloader/FileNameSanitizer.java:73-75 | the table maps the empty string to itself |
| FileNameSanitizer.Rules | my-personal-telegram-bots/youtube-mp3-downloader/src/main/java/dev/telegrambots/youtubemp3downloader/FileNameSanitizer.java:21-67 | the table has the 42 rules in declaration order, each replacing with "", " " or "'" |
| FileNameSanitizer.RuleAt | my-personal-telegram-bots/youtube-mp3-downloader/src/main/java/dev/telegrambots/youtubemp3downloader/FileNameSanitizer.java:23-66 | every rule's replacement is empty, a space or an apostrophe |
| FileNameSanitizer.ApplyInOrder | my-personal-telegram-bots/youtube-mp3-downloader/src/main/java/dev/telegrambots/youtubemp3downloader/FileNameSanitizer.java:73-75 | the loop over the LinkedHashMap applies the rules once each, in order |
| FileNameSanitizer.Sanitized | my-personal-telegram-bots/youtube-mp3-downloader/src/main/java/dev/telegrambots/youtubemp3downloader/FileNameSanitizer.java:69-71 | sanitize(null) is null, and only null gives null |
| FileNameSanitizer.Sanitize | my-personal-telegram-bots/youtube-mp3-downloader/src/main/java/dev/telegrambots/youtubemp3downloader/FileNameSanitizer.java:69-83 | the method computes sanitize's whole pipeline |
| FileNameSanitizer.AppendWords | my-personal-telegram-bots/youtube-mp3-downloader/src/main/java/dev/telegrambots/youtubemp3downloader/FileNameSanitizer.java:92-100 | the StringBuilder loop appends each non-empty word capitalised, followed by a space |
| FileNameSanitizer.CapitalizeWords | my-personal-telegram-bots/youtube-mp3-downloader/src/main/java/dev/telegrambots/youtubemp3downloader/FileNameSanitizer.java:88-102 | capitalizeWords is the trimmed join of the capitalised words |
| FileNameSanitizer.SplitOnSpace | my-personal-telegram-bots/youtube-mp3-downloader/src/main/java/dev/telegrambots/youtubemp3downloader/FileNameSanitizer.java:91 | split(" ") yields at least one piece |
| FileNameSanitizer.SplitLength | my-personal-telegram-bots/youtube-mp3-downloader/src/main/java/dev/telegrambots/youtubemp3downloader/FileNameSanitizer.java:91 | the pieces of split(" ") and their separators add up to the input |
| FileNameSanitizer.JoinedSingleSpaced | my-personal-telegram-bots/youtube-mp3-downloader/src/main/java/dev/telegrambots/youtubemp3downloader/FileNameSanitizer.java:93-100 | the joined words never hold two consecutive spaces |
| FileNameSanitizer.JoinedCapitalized | my-personal-telegram-bots/youtube-mp3-downloader/src/main/java/dev/telegrambots/youtubemp3downloader/FileNameSanitizer.java:95-97 | each joined word is its first character upper-cased, then the rest lower-cased |
| FileNameSanitizer.CapitalizedNotLonger | my-personal-telegram-bots/youtube-mp3-downloader/src/main/java/dev/telegrambots/youtubemp3downloader/FileNameSanitizer.java:88-102 | capitalizeWords never lengthens its input |
| FileNameSanitizer.CapitalizedSpacing | my-personal-telegram-bots/youtube-mp3-downloader/src/main/java/dev/telegrambots/youtubemp3downloader/FileNameSanitizer.java:101 | capitalizeWords' output neither starts nor ends with whitespace and is single-spaced |
| FileNameSanitizer.CapitalizedWordsAreCapitalized | my-personal-telegram-bots/youtube-mp3-downloader/src/main/java/dev/telegrambots/youtubemp3downloader/FileNameSanitizer.java:91-100 | every output word starts with a non-lower-case letter and has no upper-case letter after it |
| FileNameSanitizer.SanitizedDropsSpecial | my-personal-telegram-bots/youtube-mp3-downloader/src/main/java/dev/telegrambots/youtubemp3downloader/FileNameSanitizer.java:26-66 | the output holds none of & ; # " _ - ( ) , / * ? \ \| ! |
| FileNameSanitizer.MarkupSpecialRule | my-personal-telegram-bots/youtube-mp3-downloader/src/main/java/dev/telegrambots/youtubemp3downloader/FileNameSanitizer.java:27-33 | each of & ; # " _ - has a rule that takes it and does not put it back |
| FileNameSanitizer.SeparatorRule | my-personal-telegram-bots/youtube-mp3-downloader/src/main/java/dev/telegrambots/youtubemp3downloader/FileNameSanitizer.java:51-54 | each of ( ) , / has such a rule |
| FileNameSanitizer.PunctuationRule | my-personal-telegram-bots/youtube-mp3-downloader/src/main/java/dev/telegrambots/youtubemp3downloader/FileNameSanitizer.java:59-63 | each of * ? \ \| ! has such a rule |
| FileNameSanitizer.SanitizedErases | my-personal-telegram-bots/youtube-mp3-downloader/src/main/java/dev/telegrambots/youtubemp3downloader/FileNameSanitizer.java:69-83 | a non-letter other than space or apostrophe that some rule erases is absent from the sanitized name |
| FileNameSanitizer.CapitalizedKeepsOut | my-personal-telegram-bots/youtube-mp3-downloader/src/main/java/dev/telegrambots/youtubemp3downloader/FileNameSanitizer.java:88-102 | capitalizeWords introduces no non-letter other than space |
| FileNameSanitizer.SanitizedNoControl | my-personal-telegram-bots/youtube-mp3-downloader/src/main/java/dev/telegrambots/youtubemp3downloader/FileNameSanitizer.java:66 | the output holds no control character |
| FileNameSanitizer.SanitizedShape | my-personal-telegram-bots/youtube-mp3-downloader/src/main/java/dev/telegrambots/youtubemp3downloader/FileNameSanitizer.java:78-101 | the output has no leading or trailing space, no double space, and capitalised words |
| FileNameSanitizer.SanitizedNotLonger | my-personal-telegram-bots/youtube-mp3-downloader/src/main/java/dev/telegrambots/youtubemp3downloader/FileNameSanitizer.java:69-83 | the output is never longer than the input |
| FileNameSanitizer.SanitizedBlank | my-personal-telegram-bots/youtube-mp3-downloader/src/main/java/dev/telegrambots/youtubemp3downloader/FileNameSanitizer.java:72-82 | whitespace-only input gives "" |
| FileNameSanitizer.ThirtyNineGone | my-personal-telegram-bots/youtube-mp3-downloader/src/main/java/dev/telegrambots/youtubemp3downloader/FileNameSanitizer.java:36 | after the `(&#39)\|(#39)\|(39;)\|(39)` rule no "39" is left, so every 39 became an apostrophe |
| FileNameSanitizer.NoThirtyNineAfterApostropheRule | my-personal-telegram-bots/youtube-mp3-downloader/src/main/java/dev/telegrambots/youtubemp3downloader/FileNameSanitizer.java:36 | the 14th rule (RuleAt(13)) is that rule, and its output never contains "39" |
| FileNameSanitizer.ComposeFileName | my-personal-telegram-bots/youtube-mp3-downloader/src/main/java/dev/telegrambots/youtubemp3downloader/FileNameSanitizer.java:109-119 | null title gives the channel; null or blank channel, or a title containing it (ignoring case), gives exactly the title; otherwise exactly "channel - title", which ends with the title and contains the channel ignoring case |
| FileNameSanitizer.TallyCounts | my-personal-telegram-bots/youtube-mp3-downloader/src/main/java/dev/telegrambots/youtubemp3downloader/FileNameSanitizer.java:149-176 | total counts the selected files, affected those whose name changes, and total == affected + unchanged |
| FileNameSanitizer.TallyRenames | my-personal-telegram-bots/youtube-mp3-downloader/src/main/java/dev/telegrambots/youtubemp3downloader/FileNameSanitizer.java:159-170 | a dry run renames nothing; otherwise exactly the successful renames are counted as changed |
| FileNameSanitizer.PerformedShape | my-personal-telegram-bots/youtube-mp3-downloader/src/main/java/dev/telegrambots/youtubemp3downloader/FileNameSanitizer.java:159-170 | each rename is (old, sanitize(base) + extension) for a selected name whose renameTo succeeded |
| FileNameSanitizer.VisitFile | my-personal-telegram-bots/youtube-mp3-downloader/src/main/java/dev/telegrambots/youtubemp3downloader/FileNameSanitizer.java:150-175 | one loop iteration updates the counters as the reference function does |
| FileNameSanitizer.TallyFiles | my-personal-telegram-bots/youtube-mp3-downloader/src/main/java/dev/telegrambots/youtubemp3downloader/FileNameSanitizer.java:149-176 | the loop over the listing computes the reference tally |
| FileNameSanitizer.SanitizeAllInDirectory | my-personal-telegram-bots/youtube-mp3-downloader/src/main/java/dev/telegrambots/youtubemp3downloader/FileNameSanitizer.java:129-198 | a path that is not a listable directory does nothing; otherwise the counters meet total == affected + unchanged and changed <= affected |
| Utils.IdStartAt | my-personal-telegram-bots/youtube-mp3-downloader/src/main/java/dev/telegrambots/youtubemp3downloader/Utils.java:14-17 | a pattern match at i puts an 11-character id right after the host |
| Utils.FindIdFrom | my-personal-telegram-bots/youtube-mp3-downloader/src/main/java/dev/telegrambots/youtubemp3downloader/Utils.java:22-23 | Matcher.find finds an id |
| Utils.IdStartExact | my-personal-telegram-bots/youtube-mp3-downloader/src/main/java/dev/telegrambots/youtubemp3downloader/Utils.java:14-17 | the scanner finds an id at i exactly when the case-insensitive pattern matches at i |
| Utils.FindIdFromSpec | my-personal-telegram-bots/youtube-mp3-downloader/src/main/java/dev/telegrambots/youtubemp3downloader/Utils.java:22-23 | find() succeeds exactly when the pattern occurs at some later position |
| Utils.ValidIffPatternOccurs | my-personal-telegram-bots/youtube-mp3-downloader/src/main/java/dev/telegrambots/youtubemp3downloader/Utils.java:18-24 | isValidYouTubeUrl holds exactly when the pattern occurs somewhere in the URL |
| Utils.ExtractVideoId | my-personal-telegram-bots/youtube-mp3-downloader/src/main/java/dev/telegrambots/youtubemp3downloader/Utils.java:26-35 | extractVideoId is non-null exactly when the URL is valid, and then it is 11 id characters |
| Utils.ExtractedIdIsLeftmost | my-personal-telegram-bots/youtube-mp3-downloader/src/main/java/dev/telegrambots/youtubemp3downloader/Utils.java:30-32 | the id returned is the one of the leftmost match |
| Utils.FileLimitMonotone | my-personal-telegram-bots/youtube-mp3-downloader/src/main/java/dev/telegrambots/youtubemp3downloader/Utils.java:48-62 | a file within a limit stays within any larger limit |
| Utils.DurationLimitMonotone | my-personal-telegram-bots/youtube-mp3-downloader/src/main/java/dev/telegrambots/youtubemp3downloader/Utils.java:64-76 | a duration within a non-negative limit stays within any larger limit |
| Utils.FileLimitCases | my-personal-telegram-bots/youtube-mp3-downloader/src/main/java/dev/telegrambots/youtubemp3downloader/Utils.java:48-62 | a missing or empty file fails; a non-empty file passes exactly when its length is at most the limit (inclusive), so a limit below one byte passes nothing |
| Utils.DurationLimitCases | my-personal-telegram-bots/youtube-mp3-downloader/src/main/java/dev/telegrambots/youtubemp3downloader/Utils.java:64-76 | a negative limit accepts every duration; a zero limit accepts only a zero duration; a positive limit accepts a negative duration or one of at most limit*60 seconds |
| Utils.FileSystem.DeleteFileIfExists | my-personal-telegram-bots/youtube-mp3-downloader/src/main/java/dev/telegrambots/youtubemp3downloader/Utils.java:78-82 | null deletes nothing; otherwise exactly that file goes and nothing else changes |
| Utils.FileSystem.constructor | my-personal-telegram-bots/youtube-mp3-downloader/src/main/java/dev/telegrambots/youtubemp3downloader/Utils.java:78-82 | the file system starts with the given files |
| YtDlpService.ParentOf | my-personal-telegram-bots/youtube-mp3-downloader/src/main/java/dev/telegrambots/youtubemp3downloader/YtDlpService.java:31 | getParent is a proper prefix of the path |
| YtDlpService.FileName | my-personal-telegram-bots/youtube-mp3-downloader/src/main/java/dev/telegrambots/youtubemp3downloader/YtDlpService.java:101 | getName is the slash-free tail of the path |
| YtDlpService.ParentOfJoin | my-personal-telegram-bots/youtube-mp3-downloader/src/main/java/dev/telegrambots/youtubemp3downloader/YtDlpService.java:99-103 | a file built as new File(dir, name) has parent dir and name name |
| YtDlpService.ArgsDifferByLocation | my-personal-telegram-bots/youtube-mp3-downloader/src/main/java/dev/telegrambots/youtubemp3downloader/YtDlpService.java:33-64 | the two command lines differ only by the --ffmpeg-location pair |
| YtDlpService.DownloadCommand | my-personal-telegram-bots/youtube-mp3-downloader/src/main/java/dev/telegrambots/youtubemp3downloader/YtDlpService.java:26-64 | there is a command exactly when url and outputPath are non-blank; it carries --max-filesize with the limit and ends with --output, outputPath, url |
| YtDlpService.DownloadAudio | my-personal-telegram-bots/youtube-mp3-downloader/src/main/java/dev/telegrambots/youtubemp3downloader/YtDlpService.java:26-92 | a failed guard returns false without running anything; what starting or waiting for yt-dlp throws propagates |
| YtDlpService.DownloadExitPolicy | my-personal-telegram-bots/youtube-mp3-downloader/src/main/java/dev/telegrambots/youtubemp3downloader/YtDlpService.java:91 | the download succeeds exactly for exit codes 0 and 101 |
| YtDlpService.TempFileName | my-personal-telegram-bots/youtube-mp3-downloader/src/main/java/dev/telegrambots/youtubemp3downloader/YtDlpService.java:101-102 | the temp name starts with the base without ".mp3", "_" and the clock reading, ends with ".mp3", and has exactly the length of those four parts |
| YtDlpService.Mp3Stripped | my-personal-telegram-bots/youtube-mp3-downloader/src/main/java/dev/telegrambots/youtubemp3downloader/YtDlpService.java:101 | a name with no ".mp3" of its own, followed by ".mp3", loses exactly the extension |
| YtDlpService.TempNameOfDownload | my-personal-telegram-bots/youtube-mp3-downloader/src/main/java/dev/telegrambots/youtubemp3downloader/YtDlpService.java:101-102 | for the output path dir/name.mp3 with such a name, the temp file is name_<millis>.mp3 |
| YtDlpService.TempPath | my-personal-telegram-bots/youtube-mp3-downloader/src/main/java/dev/telegrambots/youtubemp3downloader/YtDlpService.java:99-106 | the audio is downloaded to the temp name inside "temp_mp3" under the output file's parent |
| Text.ReplaceAbsent | my-personal-telegram-bots/youtube-mp3-downloader/src/main/java/dev/telegrambots/youtubemp3downloader/YtDlpService.java:101 | String.replace leaves a text without the target unchanged |
| Text.ReplaceStripsSuffix | my-personal-telegram-bots/youtube-mp3-downloader/src/main/java/dev/telegrambots/youtubemp3downloader/YtDlpService.java:101 | String.replace of a target whose first character does not recur erases it from the end of a text that does not contain it, and changes nothing else |
| YtDlpService.ReplaceSinglePass | my-personal-telegram-bots/youtube-mp3-downloader/src/main/java/dev/telegrambots/youtubemp3downloader/YtDlpService.java:101 | replace(".mp3", "") is a single left-to-right pass, so ".m.mp3p3" leaves ".mp3" |
| YtDlpService.ReplaceLeavesTail | my-personal-telegram-bots/youtube-mp3-downloader/src/main/java/dev/telegrambots/youtubemp3downloader/YtDlpService.java:101 | replace(".mp3", "") removes the occurrence and keeps what follows it |
| YtDlpService.DownloadAudioWithThumbnail | my-personal-telegram-bots/youtube-mp3-downloader/src/main/java/dev/telegrambots/youtubemp3downloader/YtDlpService.java:92-196 | false exactly when the guard fails or the audio download (into the temp file) returns false; after a successful audio download an exception of the cover stage propagates, and otherwise the result is true, with the copy to the fixed work directory made exactly when ffmpeg exits with 0 |
| YtDlpService.CoverNeverDecides | my-personal-telegram-bots/youtube-mp3-downloader/src/main/java/dev/telegrambots/youtubemp3downloader/YtDlpService.java:107-195 | whatever the thumbnail and ffmpeg steps do, the result is the same |
| YtDlpService.NextInfoLine | my-personal-telegram-bots/youtube-mp3-downloader/src/main/java/dev/telegrambots/youtubemp3downloader/YtDlpService.java:243-247 | the next info line is the first non-blank line not starting with WARNING |
| YtDlpService.InfoLines | my-personal-telegram-bots/youtube-mp3-downloader/src/main/java/dev/telegrambots/youtubemp3downloader/YtDlpService.java:240-252 | a title is only read after a channel |
| YtDlpService.ReadInfoLines | my-personal-telegram-bots/youtube-mp3-downloader/src/main/java/dev/telegrambots/youtubemp3downloader/YtDlpService.java:240-252 | the read loop keeps the first info line as the channel and the next one as the title |
| YtDlpService.GetVideoInfo | my-personal-telegram-bots/youtube-mp3-downloader/src/main/java/dev/telegrambots/youtubemp3downloader/YtDlpService.java:228-254 | a blank URL gives ["channel", "video"]; otherwise the parsed lines, with "channel" and "video" as defaults |
| YtDlpService.VideoInfoSkipsWarnings | my-personal-telegram-bots/youtube-mp3-downloader/src/main/java/dev/telegrambots/youtubemp3downloader/YtDlpService.java:243-253 | every line before the channel is blank or a WARNING line |
| YtDlpService.OptLong | my-personal-telegram-bots/youtube-mp3-downloader/src/main/java/dev/telegrambots/youtubemp3downloader/YtDlpService.java:302 | optLong gives the field or the default |
| YtDlpService.AudioOnlySize | my-personal-telegram-bots/youtube-mp3-downloader/src/main/java/dev/telegrambots/youtubemp3downloader/YtDlpService.java:320-369 | the result is {size, duration} only when the exit is 0, the output is JSON and size > 0; otherwise {-1, -1} |
| YtDlpService.GeneralSize | my-personal-telegram-bots/youtube-mp3-downloader/src/main/java/dev/telegrambots/youtubemp3downloader/YtDlpService.java:288-311 | size is filesize, else filesize_approx, else -1; duration is duration, else -1; failures give {-1, -1} |
| YtDlpService.VideoSizeAndDuration | my-personal-telegram-bots/youtube-mp3-downloader/src/main/java/dev/telegrambots/youtubemp3downloader/YtDlpService.java:259-312 | a blank URL gives {-1, -1}; the audio-only result is used when its size is positive, else the general probe's |
| YtDlpService.AudioProbePreferred | my-personal-telegram-bots/youtube-mp3-downloader/src/main/java/dev/telegrambots/youtubemp3downloader/YtDlpService.java:266-267 | the audio-only result is returned exactly when its size is positive, or when both probes agree |
| YtDlpService.FailedProbesUnknown | my-personal-telegram-bots/youtube-mp3-downloader/src/main/java/dev/telegrambots/youtubemp3downloader/YtDlpService.java:289-297 | two unreadable probes give {-1, -1} |
| YtDlpService.AudioDurationSeconds | my-personal-telegram-bots/youtube-mp3-downloader/src/main/java/dev/telegrambots/youtubemp3downloader/YtDlpService.java:196-222 | a blank path, no output line or an unparsable line gives -1 |
| YtDlpService.FileWithinLimit | my-personal-telegram-bots/youtube-mp3-downloader/src/main/java/dev/telegrambots/youtubemp3downloader/YtDlpService.java:222-224 | the service's size check is Utils' predicate with the configured limit |
| YtDlpService.DurationWithinLimit | my-personal-telegram-bots/youtube-mp3-downloader/src/main/java/dev/telegrambots/youtubemp3downloader/YtDlpService.java:226-228 | the service's duration check is Utils' predicate with the configured limit |
| YtDlpService.DeleteFileIfExists | my-personal-telegram-bots/youtube-mp3-downloader/src/main/java/dev/telegrambots/youtubemp3downloader/YtDlpService.java:371-373 | deletes exactly the given file |
| CommandHandler.UrlLengthAt | my-personal-telegram-bots/youtube-mp3-downloader/src/main/java/dev/telegrambots/youtubemp3downloader/CommandHandler.java:45 | a match of the link pattern is at least a scheme, youtu.be/ and 11 id characters long |
| CommandHandler.MatchesAreLinks | my-personal-telegram-bots/youtube-mp3-downloader/src/main/java/dev/telegrambots/youtubemp3downloader/CommandHandler.java:45-50 | every extracted string is a link of the pattern's language (IsLink), and on its own it is matched whole |
| CommandHandler.MatchIsLink | my-personal-telegram-bots/youtube-mp3-downloader/src/main/java/dev/telegrambots/youtubemp3downloader/CommandHandler.java:48-49 | each single match, taken on its own, is matched whole by the pattern |
| CommandHandler.LinkAt | my-personal-telegram-bots/youtube-mp3-downloader/src/main/java/dev/telegrambots/youtubemp3downloader/CommandHandler.java:45 | the scanner finds a match of length n at i exactly when those n characters are "http://" or "https://", an optional "www.", one of the three host forms and eleven characters of [A-Za-z0-9_-], in exact letter case |
| CommandHandler.LinkFromMatch | my-personal-telegram-bots/youtube-mp3-downloader/src/main/java/dev/telegrambots/youtubemp3downloader/CommandHandler.java:45 | a match found by the scanner is a link of that language |
| CommandHandler.MatchFromLink | my-personal-telegram-bots/youtube-mp3-downloader/src/main/java/dev/telegrambots/youtubemp3downloader/CommandHandler.java:45 | a link of that language in the text is found by the scanner with its own length |
| CommandHandler.MatchedPrefix | my-personal-telegram-bots/youtube-mp3-downloader/src/main/java/dev/telegrambots/youtubemp3downloader/CommandHandler.java:45 | a match found by the scanner begins with the literal alternatives it took, followed by the 11-character id |
| CommandHandler.PrefixMatched | my-personal-telegram-bots/youtube-mp3-downloader/src/main/java/dev/telegrambots/youtubemp3downloader/CommandHandler.java:45 | a literal prefix of the language followed by an id is matched with exactly that length |
| CommandHandler.MatchesLeftmost | my-personal-telegram-bots/youtube-mp3-downloader/src/main/java/dev/telegrambots/youtubemp3downloader/CommandHandler.java:48-49 | find() resumes after the previous match and takes the leftmost next one, without overlap |
| CommandHandler.Add | my-personal-telegram-bots/youtube-mp3-downloader/src/main/java/dev/telegrambots/youtubemp3downloader/CommandHandler.java:49 | LinkedHashSet.add keeps the elements and adds the new one |
| CommandHandler.AddAllShape | my-personal-telegram-bots/youtube-mp3-downloader/src/main/java/dev/telegrambots/youtubemp3downloader/CommandHandler.java:47-51 | the set has no duplicates, keeps what was there, and holds exactly the seen and added elements |
| CommandHandler.AddAllOrder | my-personal-telegram-bots/youtube-mp3-downloader/src/main/java/dev/telegrambots/youtubemp3downloader/CommandHandler.java:47-51 | new elements appear in first-occurrence order |
| CommandHandler.DedupSpec | my-personal-telegram-bots/youtube-mp3-downloader/src/main/java/dev/telegrambots/youtubemp3downloader/CommandHandler.java:47-51 | the URL list has no duplicates, the same elements as the matches, and first-seen order |
| CommandHandler.ExtractStep | my-personal-telegram-bots/youtube-mp3-downloader/src/main/java/dev/telegrambots/youtubemp3downloader/CommandHandler.java:48-49 | one find() step adds the match found at the scan position, or moves on by one character |
| CommandHandler.ExtractUrls | my-personal-telegram-bots/youtube-mp3-downloader/src/main/java/dev/telegrambots/youtubemp3downloader/CommandHandler.java:45-51 | the extraction loop yields the deduplicated matches |
| CommandHandler.RouteOf | my-personal-telegram-bots/youtube-mp3-downloader/src/main/java/dev/telegrambots/youtubemp3downloader/CommandHandler.java:37-116 | no text means not handled; the single path passes the whole message text; a batch has at least two distinct links |
| CommandHandler.HandledIff | my-personal-telegram-bots/youtube-mp3-downloader/src/main/java/dev/telegrambots/youtubemp3downloader/CommandHandler.java:52-116 | handle returns true exactly for two or more distinct links, or one link in a text Utils accepts; zero matches reject |
| CommandHandler.RepeatedLinkIsSingle | my-personal-telegram-bots/youtube-mp3-downloader/src/main/java/dev/telegrambots/youtubemp3downloader/CommandHandler.java:106-109 | a link repeated several times dedupes to one and takes the single path with the whole text |
| CommandHandler.LoneShortsRejected | my-personal-telegram-bots/youtube-mp3-downloader/src/main/java/dev/telegrambots/youtubemp3downloader/CommandHandler.java:106 | a lone /shorts/ link is one match but is rejected, since Utils' pattern has no shorts host |
| CommandHandler.ShortsLinkInvalid | my-personal-telegram-bots/youtube-mp3-downloader/src/main/java/dev/telegrambots/youtubemp3downloader/Utils.java:14-17 | Utils rejects a shorts link |
| CommandHandler.ToInt | my-personal-telegram-bots/youtube-mp3-downloader/src/main/java/dev/telegrambots/youtubemp3downloader/CommandHandler.java:54 | the (int) cast of a double keeps an in-range value and maps values above or below the int range to Integer.MAX_VALUE or Integer.MIN_VALUE |
| Text.JavaDiv | my-personal-telegram-bots/youtube-mp3-downloader/src/main/java/dev/telegrambots/youtubemp3downloader/CommandHandler.java:55 | integer division truncates toward zero: q*b lies between 0 and a and is less than the size of b away from a |
| Text.JavaDivSigns | my-personal-telegram-bots/youtube-mp3-downloader/src/main/java/dev/telegrambots/youtubemp3downloader/CommandHandler.java:93 | truncation rounds toward zero for negative dividends and divisors |
| CommandHandler.EstimateIsCeiling | my-personal-telegram-bots/youtube-mp3-downloader/src/main/java/dev/telegrambots/youtubemp3downloader/CommandHandler.java:54 | the estimate is ceil(n*60/p) seconds for p > 0, saturating at Integer.MAX_VALUE |
| CommandHandler.Announcement | my-personal-telegram-bots/youtube-mp3-downloader/src/main/java/dev/telegrambots/youtubemp3downloader/CommandHandler.java:55 | the batch announcement opens with the link count and the parallelism, and closes with the estimate in seconds and in whole minutes |
| CommandHandler.Slices | my-personal-telegram-bots/youtube-mp3-downloader/src/main/java/dev/telegrambots/youtubemp3downloader/CommandHandler.java:84-87 | the slicing loop produces consecutive slices of p tasks |
| CommandHandler.SlicesConcat | my-personal-telegram-bots/youtube-mp3-downloader/src/main/java/dev/telegrambots/youtubemp3downloader/CommandHandler.java:84-87 | the slices concatenate back to the task list |
| CommandHandler.SlicesBounded | my-personal-telegram-bots/youtube-mp3-downloader/src/main/java/dev/telegrambots/youtubemp3downloader/CommandHandler.java:85 | each slice is non-empty and holds at most p tasks |
| CommandHandler.SlicesCount | my-personal-telegram-bots/youtube-mp3-downloader/src/main/java/dev/telegrambots/youtubemp3downloader/CommandHandler.java:84 | there are ceil(n/p) slices |
| CommandHandler.SliceContents | my-personal-telegram-bots/youtube-mp3-downloader/src/main/java/dev/telegrambots/youtubemp3downloader/CommandHandler.java:85-86 | slice k is tasks[k*p .. min(k*p+p, n)) |
| CommandHandler.Record | my-personal-telegram-bots/youtube-mp3-downloader/src/main/java/dev/telegrambots/youtubemp3downloader/CommandHandler.java:66-81 | each task bumps exactly one counter; a failure appends the url, or "url (Kind: msg)" when it threw |
| CommandHandler.TallyTotals | my-personal-telegram-bots/youtube-mp3-downloader/src/main/java/dev/telegrambots/youtubemp3downloader/CommandHandler.java:57-90 | done + error == n and the detail list has one entry per error |
| CommandHandler.TallySuccesses | my-personal-telegram-bots/youtube-mp3-downloader/src/main/java/dev/telegrambots/youtubemp3downloader/CommandHandler.java:69-70 | done counts the tasks that returned true |
| CommandHandler.TallyFailures | my-personal-telegram-bots/youtube-mp3-downloader/src/main/java/dev/telegrambots/youtubemp3downloader/CommandHandler.java:71-77 | errorDetails lists the failures in task order |
| CommandHandler.TallyAppend | my-personal-telegram-bots/youtube-mp3-downloader/src/main/java/dev/telegrambots/youtubemp3downloader/CommandHandler.java:84-87 | running the slices one after another is running the whole list |
| CommandHandler.RunSlice | my-personal-telegram-bots/youtube-mp3-downloader/src/main/java/dev/telegrambots/youtubemp3downloader/CommandHandler.java:86 | one invokeAll call records its slice's outcomes |
| CommandHandler.RunBatch | my-personal-telegram-bots/youtube-mp3-downloader/src/main/java/dev/telegrambots/youtubemp3downloader/CommandHandler.java:56-91 | the batch records every task; a non-positive parallelism kills the batch thread |
| CommandHandler.FailedBlockLines | my-personal-telegram-bots/youtube-mp3-downloader/src/main/java/dev/telegrambots/youtubemp3downloader/CommandHandler.java:101 | the failure block reads back as its entries, one per line |
| CommandHandler.SummaryText | my-personal-telegram-bots/youtube-mp3-downloader/src/main/java/dev/telegrambots/youtubemp3downloader/CommandHandler.java:94-102 | the summary starts with the header and counters, and ends with the failure list exactly when there are failures |
| CommandHandler.AppendFailedLines | my-personal-telegram-bots/youtube-mp3-downloader/src/main/java/dev/telegrambots/youtubemp3downloader/CommandHandler.java:101 | the loop appends each entry and a newline |
| CommandHandler.BuildSummary | my-personal-telegram-bots/youtube-mp3-downloader/src/main/java/dev/telegrambots/youtubemp3downloader/CommandHandler.java:94-102 | the builder computes the summary text |
| CurlTitle.LazyEnd | my-personal-telegram-bots/youtube-mp3-downloader/src/main/java/dev/telegrambots/youtubemp3downloader/CommandHandler.java:135 | a lazy `(.*?)` ends at the first closing text, with no line terminator before it |
| CurlTitle.QuoteEnd | my-personal-telegram-bots/youtube-mp3-downloader/src/main/java/dev/telegrambots/youtubemp3downloader/CommandHandler.java:139 | `([^"]+)"` ends at the first quote, after at least one character |
| CurlTitle.FindGroup | my-personal-telegram-bots/youtube-mp3-downloader/src/main/java/dev/telegrambots/youtubemp3downloader/CommandHandler.java:135-145 | Matcher.find takes the leftmost start with a match |
| CurlTitle.StripYouTubeSuffix | my-personal-telegram-bots/youtube-mp3-downloader/src/main/java/dev/telegrambots/youtubemp3downloader/CommandHandler.java:137 | one trailing " - YouTube" is removed |
| CurlTitle.TitleAndAuthor | my-personal-telegram-bots/youtube-mp3-downloader/src/main/java/dev/telegrambots/youtubemp3downloader/CommandHandler.java:123-151 | a curl failure gives (null, null); the author is the `"author"` group; the meta title stands in for a missing or blank title |
| CurlTitle.LazyEndOverPlain | my-personal-telegram-bots/youtube-mp3-downloader/src/main/java/dev/telegrambots/youtubemp3downloader/CommandHandler.java:135 | the lazy group over plain text stops at the closing tag |
| CurlTitle.TitleRoundTrip | my-personal-telegram-bots/youtube-mp3-downloader/src/main/java/dev/telegrambots/youtubemp3downloader/CommandHandler.java:135-138 | a page with `<title>t</title>` yields t |
| CurlTitle.AuthorRoundTrip | my-personal-telegram-bots/youtube-mp3-downloader/src/main/java/dev/telegrambots/youtubemp3downloader/CommandHandler.java:139-142 | a page with `"author":"a"` yields a |
| CurlTitle.QuoteScan | my-personal-telegram-bots/youtube-mp3-downloader/src/main/java/dev/telegrambots/youtubemp3downloader/CommandHandler.java:139 | the quote scan stops at the first quote |
| CurlTitle.MetaOnlyAsFallback | my-personal-telegram-bots/youtube-mp3-downloader/src/main/java/dev/telegrambots/youtubemp3downloader/CommandHandler.java:143-146 | the meta title replaces only a missing or blank title |
| ProcessDownload.Precheck | my-personal-telegram-bots/youtube-mp3-downloader/src/main/java/dev/telegrambots/youtubemp3downloader/CommandHandler.java:187-200 | rejects for duration iff duration > 0 and over the limit, checked first; for size iff size > 0 and over the limit |
| ProcessDownload.UnknownPassesPrecheck | my-personal-telegram-bots/youtube-mp3-downloader/src/main/java/dev/telegrambots/youtubemp3downloader/CommandHandler.java:187-200 | {-1, -1} never rejects |
| ProcessDownload.PrecheckMonotone | my-personal-telegram-bots/youtube-mp3-downloader/src/main/java/dev/telegrambots/youtubemp3downloader/CommandHandler.java:187-200 | a video that passes stays passing under larger limits |
| ProcessDownload.ReadMetadata | my-personal-telegram-bots/youtube-mp3-downloader/src/main/java/dev/telegrambots/youtubemp3downloader/CommandHandler.java:227-241 | blank output means no metadata; output whose trim starts with '{' is JSON |
| ProcessDownload.FirstPhase | my-personal-telegram-bots/youtube-mp3-downloader/src/main/java/dev/telegrambots/youtubemp3downloader/CommandHandler.java:179-257 | only the two limits and blank metadata stop the run; non-JSON output warns and goes on |
| ProcessDownload.ExceptionsNeverStop | my-personal-telegram-bots/youtube-mp3-downloader/src/main/java/dev/telegrambots/youtubemp3downloader/CommandHandler.java:243-244 | an exception in the first phase is logged and the run goes on |
| ProcessDownload.ChooseNames | my-personal-telegram-bots/youtube-mp3-downloader/src/main/java/dev/telegrambots/youtubemp3downloader/CommandHandler.java:259-289 | the curl fallback runs iff a sanitized name is null, blank, holds one of = / : * ? " < > \| or "http"; it then takes curl's title and author, or "video" and no channel |
| ProcessDownload.BaseFileName | my-personal-telegram-bots/youtube-mp3-downloader/src/main/java/dev/telegrambots/youtubemp3downloader/CommandHandler.java:292-295 | the base name is never blank; it ends with the title; without a channel it is the title, or "audio" when that is blank |
| ProcessDownload.Caption | my-personal-telegram-bots/youtube-mp3-downloader/src/main/java/dev/telegrambots/youtubemp3downloader/CommandHandler.java:345-360 | the caption holds the before name, the after name and the URL, and ends with the curl note iff the fallback was used |
| ProcessDownload.CrashNotice | my-personal-telegram-bots/youtube-mp3-downloader/src/main/java/dev/telegrambots/youtubemp3downloader/CommandHandler.java:364-375 | a crash notice opens with the error tag and the reason of the catch block that caught it, contains the position in the batch and the URL, and closes with that block's emoji |
| ProcessDownload.CrashNoticeTellsKind | my-personal-telegram-bots/youtube-mp3-downloader/src/main/java/dev/telegrambots/youtubemp3downloader/CommandHandler.java:364-375 | two notices for the same link are equal exactly when the exceptions fell into the same catch block |
| ProcessDownload.SizeFailure | my-personal-telegram-bots/youtube-mp3-downloader/src/main/java/dev/telegrambots/youtubemp3downloader/CommandHandler.java:319-338 | 0 bytes means blocked, more means too large, no file means not found |
| ProcessDownload.TrueDownloadSkipsExistenceCheck | my-personal-telegram-bots/youtube-mp3-downloader/src/main/java/dev/telegrambots/youtubemp3downloader/CommandHandler.java:303-307 | a download that reports true skips the existence check even if the file is missing |
| ProcessDownload.SentOnlyWithinLimits | my-personal-telegram-bots/youtube-mp3-downloader/src/main/java/dev/telegrambots/youtubemp3downloader/CommandHandler.java:309-363 | audio is sent only when the file exists, is non-empty and within both limits, under the composed name |
| ProcessDownload.SecondPhaseRun | my-personal-telegram-bots/youtube-mp3-downloader/src/main/java/dev/telegrambots/youtubemp3downloader/CommandHandler.java:259-385 | computes the outcome; no file but the composed one changes, and that file remains exactly when it was downloaded and then sent, or the run crashed after it |
| ProcessDownload.ProcessDownloadWithStatus | my-personal-telegram-bots/youtube-mp3-downloader/src/main/java/dev/telegrambots/youtubemp3downloader/CommandHandler.java:165-386 | returns true exactly when the audio was sent; a first-phase stop touches no file; a failure after the download leaves no composed file behind |
| SanitizerCli.Decode | my-personal-telegram-bots/youtube-mp3-downloader/src/main/java/dev/telegrambots/youtubemp3downloader/FileNameSanitizerCli.java:5-12 | no arguments or "--help" first shows usage; dir is args[0]; ext is args[1] or ".mp3"; dryRun iff args[2] is "true" ignoring case |
| SanitizerCli.DecodeEncode | my-personal-telegram-bots/youtube-mp3-downloader/src/main/java/dev/telegrambots/youtubemp3downloader/FileNameSanitizerCli.java:10-12 | decoding the arguments of any invocation gives it back |
| SanitizerCli.TrailingArgumentsIgnored | my-personal-telegram-bots/youtube-mp3-downloader/src/main/java/dev/telegrambots/youtubemp3downloader/FileNameSanitizerCli.java:10-12 | arguments after the third are ignored |
| SanitizerCli.InvalidFlagIsNotDryRun | my-personal-telegram-bots/youtube-mp3-downloader/src/main/java/dev/telegrambots/youtubemp3downloader/FileNameSanitizerCli.java:12 | a third argument "invalid" gives a live run |
| SanitizerCli.Run | my-personal-telegram-bots/youtube-mp3-downloader/src/main/java/dev/telegrambots/youtubemp3downloader/FileNameSanitizerCli.java:4-14 | usage never runs the sanitizer; otherwise one sanitizeAllInDirectory(dir, ext, dryRun) call reports, for a directory, total, affected and alreadyClean against the selected names, the renames actually performed (none in a dry run) and changed as their count |
| ProcessRunner.SuccessIffZero | my-personal-telegram-bots/youtube-mp3-downloader/src/main/java/dev/telegrambots/youtubemp3downloader/ProcessRunner.java:18-32 | isSuccess iff the exit code is 0; the getters return the constructor arguments, null included |
| ProcessRunner.ExtremeCodesFail | my-personal-telegram-bots/youtube-mp3-downloader/src/main/java/dev/telegrambots/youtubemp3downloader/ProcessRunner.java:32 | Integer.MAX_VALUE and Integer.MIN_VALUE are not success |
| ConverterBot.Dispatch | my-personal-telegram-bots/converter-bot/src/main/java/dev/telegrambots/converterbot/ConverterBot.java:65-75 | "/start" goes to the welcome before any document check; a document goes to the converter; everything else does nothing |
| ConverterBot.FallbackText | my-personal-telegram-bots/converter-bot/src/main/java/dev/telegrambots/converterbot/ConverterBot.java:215-224 | fixed texts for welcome, done and wrongtype, and "Message not found." for any other key |
| ConverterBot.RandomText | my-personal-telegram-bots/converter-bot/src/main/java/dev/telegrambots/converterbot/ConverterBot.java:204-226 | a loaded array gives one of its entries; otherwise the fallback |
| ConverterBot.StripTmp | my-personal-telegram-bots/converter-bot/src/main/java/dev/telegrambots/converterbot/ConverterBot.java:168-170 | one trailing ".tmp" is removed |
| ConverterBot.Mp4Path | my-personal-telegram-bots/converter-bot/src/main/java/dev/telegrambots/converterbot/ConverterBot.java:165-177 | the output path always ends with ".mp4" and is the stripped path less 5 (.webm) or 4 (.gif) characters |
| ConverterBot.ExtensionOfName | my-personal-telegram-bots/converter-bot/src/main/java/dev/telegrambots/converterbot/ConverterBot.java:171-174 | the cut is the length of the original's extension |
| ConverterBot.StripTmpAdded | my-personal-telegram-bots/converter-bot/src/main/java/dev/telegrambots/converterbot/ConverterBot.java:168-170 | a path without ".tmp" is recovered after adding one |
| ConverterBot.ExtensionNotTmp | my-personal-telegram-bots/converter-bot/src/main/java/dev/telegrambots/converterbot/ConverterBot.java:168-174 | a .webm or .gif path is not stripped |
| ConverterBot.Mp4ReplacesExtension | my-personal-telegram-bots/converter-bot/src/main/java/dev/telegrambots/converterbot/ConverterBot.java:165-177 | a path carrying the original's extension has it replaced by ".mp4" |
| ConverterBot.FfmpegCommand | my-personal-telegram-bots/converter-bot/src/main/java/dev/telegrambots/converterbot/ConverterBot.java:178-186 | ffmpeg reads the input path and writes the .mp4 path |
| ConverterBot.ConvertToMp4 | my-personal-telegram-bots/converter-bot/src/main/java/dev/telegrambots/converterbot/ConverterBot.java:163-202 | a nonzero ffmpeg exit is an IOException; success gives the .mp4 path |
| ConverterBot.HandleDocument | my-personal-telegram-bots/converter-bot/src/main/java/dev/telegrambots/converterbot/ConverterBot.java:100-160 | a name not ending in .webm or .gif gets exactly the wrong-type notice; an accepted one gets the .mp4 with the done caption when the download and the conversion succeed, and exactly the conversion error otherwise |
| ConverterBot.WelcomeText | my-personal-telegram-bots/converter-bot/src/main/java/dev/telegrambots/converterbot/ConverterBot.java:87-90 | the welcome reply is the success tag, the drawn text and the waving hand, the drawn text intact between them |
| ConverterBot.DoneCaption | my-personal-telegram-bots/converter-bot/src/main/java/dev/telegrambots/converterbot/ConverterBot.java:133-136 | the caption is the success tag, the drawn text and the clapper board, the drawn text intact between them |
| ConverterBot.OnUpdate | my-personal-telegram-bots/converter-bot/src/main/java/dev/telegrambots/converterbot/ConverterBot.java:62-83 | an exception escaping a handler sends the generic error to the message's chat |
| ConverterBot.OneReplyPerHandledUpdate | my-personal-telegram-bots/converter-bot/src/main/java/dev/telegrambots/converterbot/ConverterBot.java:62-160 | each routed update gets one reply in its own chat; a file is sent only for an accepted name, under a path ending in ".mp4" |
| ConverterBot.StartBeforeDocument | my-personal-telegram-bots/converter-bot/src/main/java/dev/telegrambots/converterbot/ConverterBot.java:67-70 | "/start" with a document attached is answered with the welcome |
| ConverterBot.FfmpegFailureReported | my-personal-telegram-bots/converter-bot/src/main/java/dev/telegrambots/converterbot/ConverterBot.java:156-200 | a nonzero ffmpeg exit reaches the user as the conversion error |
| SharedConfig.GetString | my-personal-telegram-bots/shared-config/src/main/java/dev/telegrambots/shared/BaseBotConfig.java:55-57 | the stored value iff the key is present, else the default |
| SharedConfig.GetParsed | my-personal-telegram-bots/shared-config/src/main/java/dev/telegrambots/shared/BaseBotConfig.java:66-111 | the parsed value when present and parsable, else the default |
| SharedConfig.GetLong | my-personal-telegram-bots/shared-config/src/main/java/dev/telegrambots/shared/BaseBotConfig.java:66-75 | getLongProperty is the parsed long when the key is present and parses within the long range, and the default otherwise |
| SharedConfig.GetInt | my-personal-telegram-bots/shared-config/src/main/java/dev/telegrambots/shared/BaseBotConfig.java:102-111 | getIntProperty is the parsed int when the key is present and parses within the int range, and the default otherwise |
| SharedConfig.GetDouble | my-personal-telegram-bots/shared-config/src/main/java/dev/telegrambots/shared/BaseBotConfig.java:84-93 | getDoubleProperty is the parsed double when the key is present and parses, and the default otherwise |
| SharedConfig.IntegerLookups | my-personal-telegram-bots/shared-config/src/main/java/dev/telegrambots/shared/BaseBotConfig.java:66-111 | a number stored in decimal is read back; a missing or malformed one gives the default |
| SharedConfig.IntOverflowFallsBack | my-personal-telegram-bots/shared-config/src/main/java/dev/telegrambots/shared/BaseBotConfig.java:102-111 | an int property just past Integer.MAX_VALUE falls back to the default, while a long property reads it |
| SharedConfig.ResolvePath | my-personal-telegram-bots/shared-config/src/main/java/dev/telegrambots/shared/BaseBotConfig.java:122-137 | the path is the config value, the environment value or the default, and never empty when the default is not |
| SharedConfig.ResolvePathPriority | my-personal-telegram-bots/shared-config/src/main/java/dev/telegrambots/shared/BaseBotConfig.java:122-137 | config, then environment, then default, skipping empty values |
| SharedConfig.LoadLimits | my-personal-telegram-bots/shared-config/src/main/java/dev/telegrambots/shared/BaseBotConfig.java:28-37 | max.filesize defaults to 52428800 and max.duration to 10.0 |
| DownloaderConfig.PathKey | my-personal-telegram-bots/youtube-mp3-downloader/src/main/java/dev/telegrambots/youtubemp3downloader/BotConfig.java:30-40 | each tool's key is "<tool>.path." followed by the OS suffix |
| DownloaderConfig.ToolPaths | my-personal-telegram-bots/youtube-mp3-downloader/src/main/java/dev/telegrambots/youtubemp3downloader/BotConfig.java:28-40 | the three tool paths are resolved on the OS's keys and are never empty |
| DownloaderConfig.Validate | my-personal-telegram-bots/youtube-mp3-downloader/src/main/java/dev/telegrambots/youtubemp3downloader/BotConfig.java:50-59 | a blank token throws first, then a blank username; otherwise the configuration is valid |
| DownloaderConfig.Load | my-personal-telegram-bots/youtube-mp3-downloader/src/main/java/dev/telegrambots/youtubemp3downloader/BotConfig.java:21-47 | the constructor reads the credentials, paths, parallelism and limits, and fails iff validation does |
| DownloaderConfig.CredentialsDecide | my-personal-telegram-bots/youtube-mp3-downloader/src/main/java/dev/telegrambots/youtubemp3downloader/BotConfig.java:25-59 | without bot.token construction always throws; parallelism defaults to 3 |
| DownloaderConfig.OsSelectsKeys | my-personal-telegram-bots/youtube-mp3-downloader/src/main/java/dev/telegrambots/youtubemp3downloader/BotConfig.java:28-30 | "Windows 10" selects the .win keys and "Linux" the .unix keys |
| DownloaderConfig.ConfiguredPathWins | my-personal-telegram-bots/youtube-mp3-downloader/src/main/java/dev/telegrambots/youtubemp3downloader/BotConfig.java:33-38 | a configured tool path on the OS's key wins over the environment |

## Left out

- Every Telegram API call is reduced to the message or file it would send, or to the outcome it stands for.
  Chat actions (upload and typing indicators) and the progress-ping thread are not modelled.
- The texts of most notices are not modelled.
  Several of them print doubles or hard-coded limits.
  Each notice is an `Outcome` value instead.
  The crash notices, the caption, the batch announcement, the summary and the converter bot's texts are modelled.
- CommandHandler.Announcement: its contract pins the opening and the closing of the text, not the fixed sentence between them.
- Logging and console output are not modelled, including the sanitizer's dry-run report and the CLI's usage text.
- Batch concurrency is not modelled; the batch is a sequential fold in URL order.
  The thread pool only decides completion order.
  In the source, errorDetails within one slice follows completion order.
  Interruption of the batch is not modelled.
- CommandHandler.RunBatch: when parallelism is not positive, the source's batch thread dies on newFixedThreadPool.
  The model returns None and sends no summary.
- Doubles are modelled as reals: the duration limits, the durations, and Double.parseDouble, which is a parser parameter.
- CommandHandler.EstimateIsCeiling: the estimate divides exactly and then saturates.
  It does not model double rounding of n*60.0/p.
- The clock, Random.nextInt and System.getenv are inputs.
  System.getProperty("os.name") is assumed non-null.
- JSON parsing is abstracted as a map of integer fields, or its absence.
- The thumbnail stage of downloadAudioWithThumbnail is reduced to its outcome and the copy destination.
  Its steps are the temp directory, the jpg search, the ffmpeg embedding and the copy.
- File paths are plain strings: getAbsolutePath is the identity and `new File(dir, name)` is dir + "/" + name.
  Renaming and deleting change a set of names.
  Whether renameTo succeeds is an input set.
- The download's effect on the work directory is given by the fileAfter probe.
- `sanitize` is a parameter of the per-URL chain; the bot passes FileNameSanitizer.SanitizedText.
- SecurityException in isFileSizeWithinLimit is not modelled.
- toLowerCase, toUpperCase and CASE_INSENSITIVE are modelled on ASCII letters only.
  Java's toLowerCase also folds non-ASCII letters, for example Cyrillic.
  So an upper-case "ПРЕМЬЕРА" is removed by the source but kept by the model.
- `$` in the sanitizer's rules is modelled as the end of input only.
  Java's `$` also matches before a final line terminator.
- The example in FileNameSanitizerTest.java ("ZillaKami - LEMON JUICE …" gives "Zillakami Lemon Juice") is not evaluated as a lemma.
- Long.parseLong and Integer.parseInt are modelled on ASCII digits; Java also accepts other Unicode decimal digits.
- ConverterBot: the file download, the deletion of the temporary files and the chat actions are not modelled.
  The source sends the conversion-error message if sending the document or the cleanup after it fails; the model does not.
  The converter's own configuration class is not part of this model; ffmpeg's path is a parameter.
- ConverterBot.OnUpdate: an exception that escapes a handler is an input.
  The model does not derive which statements could throw it.
- YtDlpService.DurationWithinLimit: its contract states the positive-limit and negative-limit cases.
  The zero-limit and unknown-duration cases follow from Utils.IsDurationWithinLimit, which it calls.
- The ResourceBundle is a map.
  A missing config.properties (MissingResourceException) is not modelled.
- The "(unknown)" before-name is unreachable: getVideoInfo never returns a null title.
