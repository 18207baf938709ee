/** The YouTube-MP3 bot's helpers: the case-insensitive video-link matcher,
    the file-size and duration limits, and file deletion over a set of paths. */
module Utils {
  import opened Text

  // ---------------------------------------------------------------- link matcher

  /** `[\w-]` without UNICODE_CHARACTER_CLASS. */
  predicate IsIdChar(c: char) { IsAsciiLetter(c) || IsDigit(c) || c == '_' || c == '-' }

  const ID_LENGTH: nat := 11

  /** Eleven id characters start at k. */
  predicate IdAt(s: string, k: nat) {
    k + ID_LENGTH <= |s| && forall j :: k <= j < k + ID_LENGTH ==> IsIdChar(s[j])
  }

  /** Length of the optional `https?://` at i (the `s` is taken when present). */
  function SchemeLength(s: string, i: nat): (n: nat)
    ensures n == 0 || n == 7 || n == 8
  {
    if OccursAtIgnoringCase(s, "https://", i) then 8
    else if OccursAtIgnoringCase(s, "http://", i) then 7
    else 0
  }

  /** Length of the optional `www\.` at i. */
  function WwwLength(s: string, i: nat): (n: nat)
    ensures n == 0 || n == 4
  {
    if OccursAtIgnoringCase(s, "www.", i) then 4 else 0
  }

  const WATCH_HOST: string := "youtube.com/watch?v="
  const SHORT_HOST: string := "youtu.be/"

  /** Length of `youtube\.com/watch\?v=` or `youtu\.be/` at i, or 0. */
  function HostLength(s: string, i: nat): (n: nat)
    ensures n == 0 || n == |WATCH_HOST| || n == |SHORT_HOST|
  {
    if OccursAtIgnoringCase(s, WATCH_HOST, i) then |WATCH_HOST|
    else if OccursAtIgnoringCase(s, SHORT_HOST, i) then |SHORT_HOST|
    else 0
  }

  /** Where the video id starts when the pattern matches at i. Taking each
      optional part whenever it is present is what backtracking settles on:
      the scheme starts with 'h', `www.` with 'w' and both hosts with 'y', so
      skipping a present optional part can never lead to a match. */
  function IdStartAt(s: string, i: nat): (r: Option<nat>)
    ensures r.Some? ==> i <= r.value && IdAt(s, r.value)
  {
    var a := i + SchemeLength(s, i);
    var b := a + WwwLength(s, a);
    var h := HostLength(s, b);
    if h > 0 && IdAt(s, b + h) then Some(b + h) else None
  }

  /** Matcher.find() from position i: the id start of the leftmost match. */
  function FindIdFrom(s: string, i: nat): (r: Option<nat>)
    requires i <= |s|
    ensures r.Some? ==> IdAt(s, r.value)
    decreases |s| - i
  {
    if IdStartAt(s, i).Some? then IdStartAt(s, i)
    else if i == |s| then None
    else FindIdFrom(s, i + 1)
  }

  /** Utils.isValidYouTubeUrl */
  predicate IsValidYouTubeUrl(url: Option<string>) {
    url.Some? && FindIdFrom(url.value, 0).Some?
  }

  /** Utils.extractVideoId: group 1 of the first match. */
  function ExtractVideoId(url: Option<string>): (r: Option<string>)
    ensures r.Some? <==> IsValidYouTubeUrl(url)
    ensures r.Some? ==> |r.value| == ID_LENGTH && forall k :: 0 <= k < |r.value| ==> IsIdChar(r.value[k])
  {
    if url.None? then None
    else
      var k := FindIdFrom(url.value, 0);
      if k.None? then None
      else
        var id := url.value[k.value..k.value + ID_LENGTH];
        assert forall j :: 0 <= j < |id| ==> id[j] == url.value[k.value + j];
        Some(id)
  }

  // -------- the pattern, stated independently

  const SCHEMES: seq<string> := ["", "http://", "https://"]
  const WWWS: seq<string> := ["", "www."]
  const HOSTS: seq<string> := [WATCH_HOST, SHORT_HOST]

  /** `(?:https?://)?(?:www\.)?(?:youtube\.com/watch\?v=|youtu\.be/)([\w-]{11})`
      matches at i with the given choice of scheme, `www.` and host: the three
      pieces follow one another, then eleven id characters. */
  predicate MatchesWith(s: string, i: nat, a: nat, b: nat, c: nat)
    requires a < |SCHEMES| && b < |WWWS| && c < |HOSTS|
  {
    var x := i + |SCHEMES[a]|;
    var y := x + |WWWS[b]|;
    OccursAtIgnoringCase(s, SCHEMES[a], i) && OccursAtIgnoringCase(s, WWWS[b], x)
    && OccursAtIgnoringCase(s, HOSTS[c], y) && IdAt(s, y + |HOSTS[c]|)
  }

  predicate MatchesAt(s: string, i: nat) {
    exists a, b, c | 0 <= a < |SCHEMES| && 0 <= b < |WWWS| && 0 <= c < |HOSTS| :: MatchesWith(s, i, a, b, c)
  }

  /** A literal occurring at i fixes the case-folded characters there. */
  lemma OccursChar(s: string, p: string, i: nat, k: nat)
    requires OccursAtIgnoringCase(s, p, i) && k < |p|
    ensures i + k < |s| && Lower(s[i + k]) == Lower(p[k])
  {
    assert s[i..i + |p|][k] == s[i + k];
  }

  /** One mismatching character rules a literal out at i. */
  lemma NotOccursAt(s: string, p: string, i: nat, k: nat)
    requires k < |p| && i + k < |s| && Lower(s[i + k]) != Lower(p[k])
    ensures !OccursAtIgnoringCase(s, p, i)
  {
    if i + |p| <= |s| {
      assert s[i..i + |p|][k] == s[i + k];
    }
  }

  /** What follows the scheme starts with 'w' or 'y', never with 'h'. */
  lemma SchemeComplete(s: string, i: nat, a: nat)
    requires a < |SCHEMES| && OccursAtIgnoringCase(s, SCHEMES[a], i)
    requires i + |SCHEMES[a]| < |s|
    requires Lower(s[i + |SCHEMES[a]|]) == 'w' || Lower(s[i + |SCHEMES[a]|]) == 'y'
    ensures SchemeLength(s, i) == |SCHEMES[a]|
  {
    if a == 0 {
      NotOccursAt(s, "https://", i, 0);
      NotOccursAt(s, "http://", i, 0);
    } else if a == 1 {
      OccursChar(s, "http://", i, 4);
      NotOccursAt(s, "https://", i, 4);
    }
  }

  lemma WwwComplete(s: string, x: nat, b: nat, c: nat)
    requires b < |WWWS| && c < |HOSTS| && OccursAtIgnoringCase(s, WWWS[b], x)
    requires OccursAtIgnoringCase(s, HOSTS[c], x + |WWWS[b]|)
    ensures WwwLength(s, x) == |WWWS[b]|
  {
    if b == 0 {
      OccursChar(s, HOSTS[c], x, 0);
      NotOccursAt(s, "www.", x, 0);
    }
  }

  lemma HostComplete(s: string, y: nat, c: nat)
    requires c < |HOSTS| && OccursAtIgnoringCase(s, HOSTS[c], y)
    ensures HostLength(s, y) == |HOSTS[c]|
  {
    if c == 1 {
      OccursChar(s, SHORT_HOST, y, 5);
      NotOccursAt(s, WATCH_HOST, y, 5);
    }
  }

  /** After the scheme comes either `www.` or a host, both lower-case-led by 'w' or 'y'. */
  lemma AfterSchemeChar(s: string, x: nat, b: nat, c: nat)
    requires b < |WWWS| && c < |HOSTS| && OccursAtIgnoringCase(s, WWWS[b], x)
    requires OccursAtIgnoringCase(s, HOSTS[c], x + |WWWS[b]|)
    ensures x < |s| && (Lower(s[x]) == 'w' || Lower(s[x]) == 'y')
  {
    if b == 1 {
      OccursChar(s, WWWS[b], x, 0);
    } else {
      OccursChar(s, HOSTS[c], x, 0);
    }
  }

  /** Any way the pattern matches at i is the one IdStartAt takes. */
  lemma IdStartComplete(s: string, i: nat, a: nat, b: nat, c: nat)
    requires a < |SCHEMES| && b < |WWWS| && c < |HOSTS| && MatchesWith(s, i, a, b, c)
    ensures IdStartAt(s, i) == Some(i + |SCHEMES[a]| + |WWWS[b]| + |HOSTS[c]|)
  {
    var x := i + |SCHEMES[a]|;
    var y := x + |WWWS[b]|;
    AfterSchemeChar(s, x, b, c);
    SchemeComplete(s, i, a);
    WwwComplete(s, x, b, c);
    HostComplete(s, y, c);
    IdStartFrom(s, i, x, y, y + |HOSTS[c]|);
  }

  lemma IdStartFrom(s: string, i: nat, x: nat, y: nat, z: nat)
    requires x == i + SchemeLength(s, i) && y == x + WwwLength(s, x)
    requires HostLength(s, y) > 0 && z == y + HostLength(s, y) && IdAt(s, z)
    ensures IdStartAt(s, i) == Some(z)
  {
  }

  lemma SchemeChoice(s: string, i: nat) returns (a: nat)
    requires i <= |s|
    ensures a < |SCHEMES| && |SCHEMES[a]| == SchemeLength(s, i) && OccursAtIgnoringCase(s, SCHEMES[a], i)
  {
    a := if SchemeLength(s, i) == 8 then 2 else if SchemeLength(s, i) == 7 then 1 else 0;
  }

  lemma WwwChoice(s: string, x: nat) returns (b: nat)
    requires x <= |s|
    ensures b < |WWWS| && |WWWS[b]| == WwwLength(s, x) && OccursAtIgnoringCase(s, WWWS[b], x)
  {
    b := if WwwLength(s, x) == 4 then 1 else 0;
  }

  lemma HostChoice(s: string, y: nat) returns (c: nat)
    requires HostLength(s, y) > 0
    ensures c < |HOSTS| && |HOSTS[c]| == HostLength(s, y) && OccursAtIgnoringCase(s, HOSTS[c], y)
  {
    c := if HostLength(s, y) == |WATCH_HOST| then 0 else 1;
  }

  /** Whatever IdStartAt finds is a match of the pattern. */
  lemma IdStartSound(s: string, i: nat)
    requires IdStartAt(s, i).Some?
    ensures MatchesAt(s, i)
  {
    var a := SchemeChoice(s, i);
    var x := i + SchemeLength(s, i);
    var b := WwwChoice(s, x);
    var y := x + WwwLength(s, x);
    var c := HostChoice(s, y);
    assert MatchesWith(s, i, a, b, c);
  }

  lemma IdStartExact(s: string, i: nat)
    ensures IdStartAt(s, i).Some? <==> MatchesAt(s, i)
  {
    if IdStartAt(s, i).Some? {
      IdStartSound(s, i);
    } else if MatchesAt(s, i) {
      var a, b, c :| 0 <= a < |SCHEMES| && 0 <= b < |WWWS| && 0 <= c < |HOSTS| && MatchesWith(s, i, a, b, c);
      IdStartComplete(s, i, a, b, c);
    }
  }

  lemma {:induction false} FindIdFromSpec(s: string, i: nat)
    requires i <= |s|
    ensures FindIdFrom(s, i).Some? <==> exists j :: i <= j <= |s| && MatchesAt(s, j)
    decreases |s| - i
  {
    IdStartExact(s, i);
    if IdStartAt(s, i).None? && i < |s| {
      FindIdFromSpec(s, i + 1);
      forall j | i <= j <= |s| && MatchesAt(s, j) ensures i + 1 <= j {
        if j == i { IdStartExact(s, j); }
      }
    }
  }

  /** A link is valid exactly when the pattern occurs somewhere in it. */
  lemma ValidIffPatternOccurs(url: string)
    ensures IsValidYouTubeUrl(Some(url)) <==> exists j :: 0 <= j <= |url| && MatchesAt(url, j)
  {
    FindIdFromSpec(url, 0);
  }

  /** The extracted id is the one that follows the leftmost match. */
  lemma {:induction false} ExtractedIdIsLeftmost(s: string, i: nat)
    requires i <= |s| && FindIdFrom(s, i).Some?
    ensures exists j :: i <= j <= |s| && IdStartAt(s, j) == FindIdFrom(s, i)
                        && forall m :: i <= m < j ==> !MatchesAt(s, m)
    decreases |s| - i
  {
    if IdStartAt(s, i).None? {
      IdStartExact(s, i);
      ExtractedIdIsLeftmost(s, i + 1);
      var j :| i + 1 <= j <= |s| && IdStartAt(s, j) == FindIdFrom(s, i + 1)
               && forall m :: i + 1 <= m < j ==> !MatchesAt(s, m);
      assert forall m :: i <= m < j ==> !MatchesAt(s, m);
    }
  }

  // ---------------------------------------------------------------- limits

  /** What a java.io.File turns out to be when its size is asked for. */
  datatype FileProbe = NoFile | Present(length: nat)

  /** Utils.isFileSizeWithinLimit: a missing (or null) file and an empty file
      fail whatever the limit; otherwise the limit is inclusive. */
  predicate IsFileSizeWithinLimit(file: FileProbe, maxBytes: int) {
    file.Present? && file.length != 0 && file.length <= maxBytes
  }

  /** Raising the limit never rejects a file that passed. */
  lemma FileLimitMonotone(file: FileProbe, m1: int, m2: int)
    requires m1 <= m2 && IsFileSizeWithinLimit(file, m1)
    ensures IsFileSizeWithinLimit(file, m2)
  {
  }

  /** The cases of isFileSizeWithinLimit: a missing file and an empty file
      fail, a present non-empty file passes exactly when its length is at
      most the limit (so a limit below one byte passes nothing). */
  lemma FileLimitCases(file: FileProbe, maxBytes: int)
    ensures file.NoFile? ==> !IsFileSizeWithinLimit(file, maxBytes)
    ensures file == Present(0) ==> !IsFileSizeWithinLimit(file, maxBytes)
    ensures file.Present? && file.length > 0 ==>
              (IsFileSizeWithinLimit(file, maxBytes) <==> file.length <= maxBytes)
    ensures maxBytes < 1 ==> !IsFileSizeWithinLimit(file, maxBytes)
  {
  }

  /** Utils.isDurationWithinLimit, on exact reals. */
  predicate IsDurationWithinLimit(durationSeconds: real, maxMinutes: real) {
    if maxMinutes < 0.0 then true
    else if maxMinutes == 0.0 then durationSeconds == 0.0
    else if durationSeconds < 0.0 then true
    else durationSeconds <= maxMinutes * 60.0
  }

  /** The cases of isDurationWithinLimit: a negative limit accepts every
      duration, a zero limit only a zero duration, and a positive limit a
      negative (unknown) duration or one of at most that many minutes. */
  lemma DurationLimitCases(d: real, maxMinutes: real)
    ensures maxMinutes < 0.0 ==> IsDurationWithinLimit(d, maxMinutes)
    ensures maxMinutes == 0.0 ==> (IsDurationWithinLimit(d, maxMinutes) <==> d == 0.0)
    ensures maxMinutes > 0.0 ==>
              (IsDurationWithinLimit(d, maxMinutes) <==> d < 0.0 || d <= maxMinutes * 60.0)
  {
  }

  /** For non-negative limits, a duration accepted under one limit is accepted
      under any larger one; a negative limit accepts everything. */
  lemma DurationLimitMonotone(d: real, m1: real, m2: real)
    requires 0.0 <= m1 <= m2 && IsDurationWithinLimit(d, m1)
    ensures IsDurationWithinLimit(d, m2)
  {
  }

  // ---------------------------------------------------------------- files

  /** The files that exist, by path. */
  class FileSystem {
    var files: set<string>

    constructor (files: set<string>)
      ensures this.files == files
    {
      this.files := files;
    }

    /** Utils.deleteFileIfExists: nothing for a null or missing file,
        otherwise exactly that file goes. */
    method DeleteFileIfExists(file: Option<string>)
      modifies this
      ensures file.None? ==> files == old(files)
      ensures file.Some? ==> files == old(files) - {file.value}
    {
      if file.Some? && file.value in files {
        files := files - {file.value};
      }
    }
  }
}
