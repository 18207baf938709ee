/** BotConfig of the YouTube-MP3 bot: the credentials, the tool paths chosen
    by operating system, the parallelism, and the validation that the
    constructor runs last. */
module DownloaderConfig {
  import opened Text
  import opened SharedConfig

  datatype BotConfig = BotConfig(
    botToken: string,
    botUsername: string,
    ytDlpPath: string,
    ffmpegPath: string,
    ffprobePath: string,
    maxParallelDownloads: int,
    limits: Limits)

  const DEFAULT_MAX_PARALLEL_DOWNLOADS: int := 3

  const TOKEN_REQUIRED: string := "Bot token is required in config.properties (bot.token)"
  const USERNAME_REQUIRED: string := "Bot username is required in config.properties (bot.username)"

  /** os.name, lower-cased, contains "win". */
  predicate IsWindows(osName: string) {
    Contains(LowerStr(osName), "win")
  }

  /** The config key of a tool's path on this operating system. */
  function PathKey(tool: string, windows: bool): (r: string)
    ensures StartsWith(r, tool + ".path.")
  {
    var r := tool + ".path." + (if windows then "win" else "unix");
    assert r[..|tool + ".path."|] == tool + ".path.";
    r
  }

  /** The three tool paths: ytDlp, ffmpeg and ffprobe. */
  function ToolPaths(config: Properties, env: Environment, osName: string): (r: (string, string, string))
    ensures r.0 != [] && r.1 != [] && r.2 != []
  {
    var w := IsWindows(osName);
    (ResolvePath(config, env, PathKey("yt-dlp", w), "YT_DLP_PATH", "yt-dlp"),
     ResolvePath(config, env, PathKey("ffmpeg", w), "FFMPEG_PATH", "ffmpeg"),
     ResolvePath(config, env, PathKey("ffprobe", w), "FFPROBE_PATH", "ffprobe"))
  }

  /** validateConfiguration(): the token is checked first; a value that
      trims to nothing counts as missing. */
  function Validate(c: BotConfig): (r: Option<Exception>)
    ensures r.None? <==> Trim(c.botToken) != [] && Trim(c.botUsername) != []
    ensures Trim(c.botToken) == [] ==> r == Some(OtherError("IllegalStateException", TOKEN_REQUIRED))
    ensures Trim(c.botToken) != [] && Trim(c.botUsername) == [] ==>
      r == Some(OtherError("IllegalStateException", USERNAME_REQUIRED))
  {
    if Trim(c.botToken) == [] then Some(OtherError("IllegalStateException", TOKEN_REQUIRED))
    else if Trim(c.botUsername) == [] then Some(OtherError("IllegalStateException", USERNAME_REQUIRED))
    else None
  }

  /** The BotConfig constructor: the configuration, or the
      IllegalStateException its validation throws. */
  function Load(config: Properties, env: Environment, osName: string, parseDouble: string -> Option<real>): (r: Result<BotConfig>)
    ensures r.Ok? ==> r.value.botToken == GetString(config, "bot.token", "")
    ensures r.Ok? ==> r.value.botUsername == GetString(config, "bot.username", "")
    ensures r.Ok? ==> r.value.maxParallelDownloads == GetInt(config, "max.parallel.downloads", DEFAULT_MAX_PARALLEL_DOWNLOADS)
    ensures r.Ok? ==> (r.value.ytDlpPath, r.value.ffmpegPath, r.value.ffprobePath) == ToolPaths(config, env, osName)
    ensures r.Ok? ==> r.value.limits == LoadLimits(config, parseDouble)
    ensures r.Ok? <==> Trim(GetString(config, "bot.token", "")) != [] && Trim(GetString(config, "bot.username", "")) != []
  {
    var (yt, ff, fp) := ToolPaths(config, env, osName);
    var c := BotConfig(
      GetString(config, "bot.token", ""),
      GetString(config, "bot.username", ""),
      yt, ff, fp,
      GetInt(config, "max.parallel.downloads", DEFAULT_MAX_PARALLEL_DOWNLOADS),
      LoadLimits(config, parseDouble));
    match Validate(c)
    case Some(e) => Thrown(e)
    case None => Ok(c)
  }

  /** Without bot.token the constructor always throws, whatever else the
      file holds; with both credentials present and non-blank it succeeds,
      taking three parallel downloads unless told otherwise. */
  lemma CredentialsDecide(config: Properties, env: Environment, osName: string, parseDouble: string -> Option<real>)
    ensures "bot.token" !in config ==>
      Load(config, env, osName, parseDouble) == Thrown(OtherError("IllegalStateException", TOKEN_REQUIRED))
    ensures "max.parallel.downloads" !in config && Load(config, env, osName, parseDouble).Ok? ==>
      Load(config, env, osName, parseDouble).value.maxParallelDownloads == 3
  {
    if "bot.token" !in config {
      assert Trim("") == [] by { TrimEmpty(""); }
    }
  }

  /** A Windows os.name selects the ".win" keys, a Linux one the ".unix" keys. */
  lemma OsSelectsKeys()
    ensures IsWindows("Windows 10")
    ensures !IsWindows("Linux")
  {
    assert LowerStr("Windows 10")[..3] == "win";
    assert OccursAt(LowerStr("Windows 10"), "win", 0);
    var l := LowerStr("Linux");
    assert l == "linux";
    forall i | 0 <= i <= |l| - 3 ensures !OccursAt(l, "win", i) {
      assert l[i..i + 3][0] != 'w';
    }
  }

  /** The configured path of a tool wins over its environment variable, on
      the operating system's own key only. */
  lemma ConfiguredPathWins(config: Properties, env: Environment, osName: string, path: string)
    requires path != []
    requires PathKey("ffmpeg", IsWindows(osName)) in config
    requires config[PathKey("ffmpeg", IsWindows(osName))] == path
    ensures ToolPaths(config, env, osName).1 == path
  {
  }
}
