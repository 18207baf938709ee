/** BaseBotConfig: typed lookups in the bot's config.properties with
    defaults, and the config -> environment -> default priority for tool
    paths. The properties file and the process environment are maps. */
module SharedConfig {
  import opened Text

  type Properties = map<string, string>
  type Environment = map<string, string>

  /** 50 MiB, the default of max.filesize. */
  const DEFAULT_MAX_FILE_SIZE: int := 50 * 1024 * 1024
  /** The default of max.duration, in minutes. */
  const DEFAULT_MAX_DURATION_MINUTES: real := 10.0

  /** getStringProperty(key, default). */
  function GetString(config: Properties, key: string, default: string): (r: string)
    ensures key in config ==> r == config[key]
    ensures key !in config ==> r == default
  {
    if key in config then config[key] else default
  }

  /** A lookup parsed by `parse` (None standing for NumberFormatException),
      falling back to the default when the key is missing or unparsable. */
  function GetParsed<T>(config: Properties, key: string, default: T, parse: string -> Option<T>): (r: T)
    ensures key !in config ==> r == default
    ensures key in config && parse(config[key]).Some? ==> r == parse(config[key]).value
    ensures key in config && parse(config[key]).None? ==> r == default
  {
    if key in config && parse(config[key]).Some? then parse(config[key]).value else default
  }

  /** getLongProperty(key, default): Long.parseLong of the value. */
  function GetLong(config: Properties, key: string, default: int): (r: int)
    requires LONG_MIN <= default <= LONG_MAX
    ensures LONG_MIN <= r <= LONG_MAX
    ensures key in config && ParseInteger(config[key], LONG_MIN, LONG_MAX).Some? ==>
              r == ParseInteger(config[key], LONG_MIN, LONG_MAX).value
    ensures key !in config || ParseInteger(config[key], LONG_MIN, LONG_MAX).None? ==> r == default
  {
    GetParsed(config, key, default, s => ParseInteger(s, LONG_MIN, LONG_MAX))
  }

  /** getIntProperty(key, default): Integer.parseInt of the value. */
  function GetInt(config: Properties, key: string, default: int): (r: int)
    requires INT_MIN <= default <= INT_MAX
    ensures INT_MIN <= r <= INT_MAX
    ensures key in config && ParseInteger(config[key], INT_MIN, INT_MAX).Some? ==>
              r == ParseInteger(config[key], INT_MIN, INT_MAX).value
    ensures key !in config || ParseInteger(config[key], INT_MIN, INT_MAX).None? ==> r == default
  {
    GetParsed(config, key, default, s => ParseInteger(s, INT_MIN, INT_MAX))
  }

  /** getDoubleProperty(key, default) with Double.parseDouble as `parse`. */
  function GetDouble(config: Properties, key: string, default: real, parse: string -> Option<real>): (r: real)
    ensures key in config && parse(config[key]).Some? ==> r == parse(config[key]).value
    ensures key !in config || parse(config[key]).None? ==> r == default
  {
    GetParsed(config, key, default, parse)
  }

  /** A value written as a decimal number in range is read back, and a
      missing or malformed one gives the default. */
  lemma IntegerLookups(config: Properties, key: string, n: int, default: int)
    requires INT_MIN <= n <= INT_MAX && INT_MIN <= default <= INT_MAX
    ensures key in config && config[key] == IntToString(n) ==> GetInt(config, key, default) == n
    ensures key in config && config[key] == IntToString(n) ==> GetLong(config, key, default) == n
    ensures key !in config ==> GetInt(config, key, default) == default && GetLong(config, key, default) == default
    ensures key in config && ParseInteger(config[key], INT_MIN, INT_MAX).None? ==> GetInt(config, key, default) == default
  {
    if key in config && config[key] == IntToString(n) {
      ParseRendered(n, INT_MIN, INT_MAX);
      ParseRendered(n, LONG_MIN, LONG_MAX);
    }
  }

  /** An int property out of the int range falls back to the default even
      though it is a well-formed number. */
  lemma IntOverflowFallsBack(config: Properties, key: string, default: int)
    requires INT_MIN <= default <= INT_MAX
    requires key in config && config[key] == IntToString(INT_MAX + 1)
    ensures GetInt(config, key, default) == default
    ensures GetLong(config, key, 0) == INT_MAX + 1
  {
    ParseRendered(INT_MAX + 1, LONG_MIN, LONG_MAX);
  }

  /** resolvePath(configKey, envVar, defaultCmd): a non-empty config value,
      else a non-empty environment variable, else the default command. */
  function ResolvePath(config: Properties, env: Environment, configKey: string, envVar: string, defaultCmd: string): (r: string)
    ensures r == defaultCmd || (configKey in config && r == config[configKey]) || (envVar in env && r == env[envVar])
    ensures r != [] || defaultCmd == []
  {
    var configValue := GetString(config, configKey, "");
    if configValue != [] then configValue
    else if envVar in env && env[envVar] != [] then env[envVar]
    else defaultCmd
  }

  /** The three levels of resolvePath, in order of priority. */
  lemma ResolvePathPriority(config: Properties, env: Environment, configKey: string, envVar: string, defaultCmd: string)
    ensures configKey in config && config[configKey] != [] ==>
      ResolvePath(config, env, configKey, envVar, defaultCmd) == config[configKey]
    ensures (configKey !in config || config[configKey] == []) && envVar in env && env[envVar] != [] ==>
      ResolvePath(config, env, configKey, envVar, defaultCmd) == env[envVar]
    ensures (configKey !in config || config[configKey] == []) && (envVar !in env || env[envVar] == []) ==>
      ResolvePath(config, env, configKey, envVar, defaultCmd) == defaultCmd
  {
  }

  /** The two limits the BaseBotConfig constructor reads. */
  datatype Limits = Limits(maxFileSize: int, maxDurationMinutes: real)

  /** The constructor's max.filesize and max.duration, with their defaults;
      nothing is validated here. */
  function LoadLimits(config: Properties, parseDouble: string -> Option<real>): (r: Limits)
    ensures "max.filesize" !in config ==> r.maxFileSize == DEFAULT_MAX_FILE_SIZE
    ensures "max.duration" !in config ==> r.maxDurationMinutes == DEFAULT_MAX_DURATION_MINUTES
    ensures LONG_MIN <= r.maxFileSize <= LONG_MAX
  {
    Limits(GetLong(config, "max.filesize", DEFAULT_MAX_FILE_SIZE),
           GetDouble(config, "max.duration", DEFAULT_MAX_DURATION_MINUTES, parseDouble))
  }
}
