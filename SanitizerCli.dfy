/** FileNameSanitizerCli.main: the command-line entry point of the bulk
    renamer. The argument vector is decoded into either the usage text or one
    call of sanitizeAllInDirectory; the file system is a map from path to
    what `new File(path)` finds there. */
module SanitizerCli {
  import opened Text
  import opened FileNameSanitizer

  /** What main does with its arguments. */
  datatype Invocation =
    | Usage
    | Rename(dir: string, extension: string, dryRun: bool)

  const DEFAULT_EXTENSION: string := ".mp3"

  /** Boolean.parseBoolean: "true" in any letter case. */
  predicate ParseBoolean(s: string) {
    EqualsIgnoreCase(s, "true")
  }

  /** The argument decoding of main. */
  function Decode(args: seq<string>): (r: Invocation)
    ensures r.Usage? <==> args == [] || args[0] == "--help"
    ensures r.Rename? ==> r.dir == args[0]
    ensures r.Rename? && |args| == 1 ==> r.extension == DEFAULT_EXTENSION && !r.dryRun
    ensures r.Rename? && |args| >= 2 ==> r.extension == args[1]
    ensures r.Rename? ==> (r.dryRun <==> |args| >= 3 && ParseBoolean(args[2]))
  {
    if |args| < 1 || args[0] == "--help" then Usage
    else
      var ext := if |args| > 1 then args[1] else DEFAULT_EXTENSION;
      var dryRun := |args| > 2 && ParseBoolean(args[2]);
      Rename(args[0], ext, dryRun)
  }

  /** An argument vector that asks for an invocation. */
  function Encode(inv: Invocation): seq<string> {
    match inv
    case Usage => []
    case Rename(dir, ext, dryRun) => [dir, ext, if dryRun then "true" else "false"]
  }

  /** Every invocation except a rename of a directory literally named
      "--help" can be asked for, and decoding gives it back. */
  lemma DecodeEncode(inv: Invocation)
    requires inv.Rename? ==> inv.dir != "--help"
    ensures Decode(Encode(inv)) == inv
  {
    if inv.Rename? {
      var args := Encode(inv);
      assert args[2] == (if inv.dryRun then "true" else "false");
      if !inv.dryRun {
        assert Lower(args[2][0]) != Lower('t');
      }
    }
  }

  /** Arguments after the third are ignored, and a third argument other
      than "true" (such as "invalid") leaves the run live. */
  lemma TrailingArgumentsIgnored(args: seq<string>, extra: seq<string>)
    requires |args| >= 3
    ensures Decode(args + extra) == Decode(args)
  {
    assert (args + extra)[..3] == args[..3];
  }

  lemma InvalidFlagIsNotDryRun(dir: string, ext: string)
    requires dir != "--help"
    ensures Decode([dir, ext, "invalid"]) == Rename(dir, ext, false)
  {
    assert Lower("invalid"[0]) != Lower("true"[0]);
  }

  /** What `new File(path)` finds at a path. */
  function DirectoryAt(fs: map<string, Directory>, path: string): Directory {
    if path in fs then fs[path] else NotADirectory
  }

  /** main(args): None for the usage text; otherwise the report of the one
      sanitizeAllInDirectory(dir, ext, dryRun) call it makes. */
  method Run(args: seq<string>, fs: map<string, Directory>, fails: set<string>)
    returns (report: Option<Option<Tally>>)
    ensures report.None? <==> Decode(args).Usage?
    ensures report.Some? ==>
      var inv := Decode(args);
      var dir := DirectoryAt(fs, inv.dir);
      && (report.value.Some? <==> dir.Listing?)
      && (dir.Listing? ==>
            var t := report.value.value;
            var selected := SelectedNames(dir.entries, Some(inv.extension));
            var dirty := NeedingRename(SanitizedText, selected);
            && t.total == |selected|
            && t.affected == |dirty|
            && t.total == t.affected + t.alreadyClean
            && t.renames == (if inv.dryRun then [] else Performed(SanitizedText, dirty, fails))
            && t.changed == |t.renames| <= t.affected)
  {
    var inv := Decode(args);
    if inv.Usage? {
      return None;
    }
    var r := SanitizeAllInDirectory(DirectoryAt(fs, inv.dir), Some(inv.extension), inv.dryRun, fails);
    report := Some(r);
  }
}
