/** CommandHandler.extractTitleAuthorFromCurl: the title and author the bot
    reads from the YouTube page when yt-dlp's names look wrong. The page is an
    input (the lines curl printed, joined without separators, or the exception
    that starting or waiting for curl threw); the three case-insensitive
    regular expressions are written out as scanners. */
module CurlTitle {
  import opened Text
  import Regex

  /** The three patterns: `<title>(.*?)</title>`, `"author":"([^"]+)"` and
      `<meta name="title" content="(.*?)"`. */
  datatype Pattern = TitleTag | AuthorField | MetaTitle

  function Opening(p: Pattern): string {
    match p
    case TitleTag => "<title>"
    case AuthorField => "\"author\":\""
    case MetaTitle => "<meta name=\"title\" content=\""
  }

  function Closing(p: Pattern): string {
    match p
    case TitleTag => "</title>"
    case AuthorField => "\""
    case MetaTitle => "\""
  }

  /** Lazy `(.*?)` followed by the closing text: the first j >= k where the
      closing text occurs (ignoring case), provided no line terminator comes
      first; `.` does not cross a line terminator. */
  function LazyEnd(s: string, close: string, k: nat): (r: Option<nat>)
    requires k <= |s|
    ensures r.Some? ==> k <= r.value && OccursAtIgnoringCase(s, close, r.value)
    ensures r.Some? ==> forall j :: k <= j < r.value ==> !Regex.IsLineTerminator(s[j])
    ensures r.Some? ==> forall j :: k <= j < r.value ==> !OccursAtIgnoringCase(s, close, j)
    decreases |s| - k
  {
    if OccursAtIgnoringCase(s, close, k) then Some(k)
    else if k == |s| || Regex.IsLineTerminator(s[k]) then None
    else LazyEnd(s, close, k + 1)
  }

  /** Greedy `([^"]+)"`: the first quote at or after k, which must leave at
      least one character for the group. */
  function QuoteEnd(s: string, k: nat): (r: Option<nat>)
    requires k <= |s|
    ensures r.Some? ==> k < r.value < |s| && s[r.value] == '"'
    ensures r.Some? ==> forall j :: k <= j < r.value ==> s[j] != '"'
  {
    var q := FirstQuote(s, k);
    if q < |s| && q > k then Some(q) else None
  }

  function FirstQuote(s: string, k: nat): (q: nat)
    requires k <= |s|
    ensures k <= q <= |s| && (q < |s| ==> s[q] == '"')
    ensures forall j :: k <= j < q ==> s[j] != '"'
    decreases |s| - k
  {
    if k == |s| || s[k] == '"' then k else FirstQuote(s, k + 1)
  }

  /** Where the group of the pattern (opening text, then lazy `(.*?)` up to
      the closing text, or greedy `([^"]+)"` when quoted) ends when a match
      starts at i, or None. */
  function GroupEnd(open: string, close: string, quoted: bool, s: string, i: nat): (r: Option<nat>)
    ensures r.Some? ==> OccursAtIgnoringCase(s, open, i) && i + |open| <= r.value <= |s|
  {
    if !OccursAtIgnoringCase(s, open, i) then None
    else if quoted then QuoteEnd(s, i + |open|)
    else LazyEnd(s, close, i + |open|)
  }

  /** Matcher.find(): the leftmost start m >= i of a match, with the end of
      its group. */
  function FindGroup(open: string, close: string, quoted: bool, s: string, i: nat): (r: Option<(nat, nat)>)
    requires i <= |s|
    ensures r.Some? ==> i <= r.value.0 && GroupEnd(open, close, quoted, s, r.value.0) == Some(r.value.1)
    ensures r.Some? ==> forall j :: i <= j < r.value.0 ==> GroupEnd(open, close, quoted, s, j).None?
    decreases |s| - i
  {
    var e := GroupEnd(open, close, quoted, s, i);
    if e.Some? then Some((i, e.value))
    else if i == |s| then None
    else FindGroup(open, close, quoted, s, i + 1)
  }

  /** m.group(1) after a successful m.find(), or null. */
  function Group(p: Pattern, s: string): (r: Option<string>)
  {
    var open := Opening(p);
    var g := FindGroup(open, Closing(p), p == AuthorField, s, 0);
    if g.Some? then Some(s[g.value.0 + |open|..g.value.1]) else None
  }

  const YOUTUBE_SUFFIX: string := " - YouTube"

  /** `replaceAll(" - YouTube$", "")` on a group that holds no line terminator:
      `$` is the end of the text, so at most the one trailing occurrence goes. */
  function StripYouTubeSuffix(t: string): (r: string)
    ensures EndsWith(t, YOUTUBE_SUFFIX) ==> t == r + YOUTUBE_SUFFIX
    ensures !EndsWith(t, YOUTUBE_SUFFIX) ==> r == t
  {
    if EndsWith(t, YOUTUBE_SUFFIX) then t[..|t| - |YOUTUBE_SUFFIX|] else t
  }

  /** The method's String[]{ytTitle, ytAuthor}: both null when curl threw;
      the `<meta name="title">` content replaces a missing or blank title
      when that pattern is found. */
  function TitleAndAuthor(html: Result<string>): (r: (Option<string>, Option<string>))
    ensures html.Thrown? ==> r == (None, None)
    ensures html.Ok? ==> r.1 == Group(AuthorField, html.value)
    ensures html.Ok? && r.0.Some? && !IsBlank(r.0.value) ==>
      (Group(TitleTag, html.value).Some? && r.0.value == StripYouTubeSuffix(Group(TitleTag, html.value).value))
      || (Group(MetaTitle, html.value) == r.0)
  {
    match html
    case Thrown(_) => (None, None)
    case Ok(s) =>
      var tag := Group(TitleTag, s);
      var title := if tag.Some? then Some(StripYouTubeSuffix(tag.value)) else None;
      var author := Group(AuthorField, s);
      if title.None? || IsBlank(title.value) then
        var meta := Group(MetaTitle, s);
        (if meta.Some? then meta else title, author)
      else (title, author)
  }

  // ---------------------------------------------------------------- round trips

  /** No character of t can start the closing tag. */
  predicate PlainText(t: string) {
    forall k :: 0 <= k < |t| ==> t[k] != '<' && t[k] != '"' && !Regex.IsLineTerminator(t[k])
  }

  /** Scanning a plain stretch s[k..e] for a closing text that starts with a
      character the stretch lacks stops exactly at e. */
  lemma {:induction false} LazyEndOverPlain(s: string, close: string, k: nat, e: nat)
    requires k <= e <= |s| && close != [] && OccursAtIgnoringCase(s, close, e)
    requires close[0] == '<' || close[0] == '"'
    requires forall j :: k <= j < e ==> s[j] != '<' && s[j] != '"' && !Regex.IsLineTerminator(s[j])
    ensures LazyEnd(s, close, k) == Some(e)
    decreases e - k
  {
    if k < e {
      assert Lower(s[k]) != Lower(close[0]);
      if k + |close| <= |s| {
        assert s[k..k + |close|][0] == s[k];
      }
      LazyEndOverPlain(s, close, k + 1, e);
    }
  }

  /** A page that starts with `<title>t</title>` for a plain t gives back t,
      less a trailing " - YouTube". */
  lemma TitleRoundTrip(t: string, rest: string)
    requires PlainText(t)
    ensures var s := "<title>" + t + "</title>" + rest;
      Group(TitleTag, s) == Some(t)
  {
    var s := "<title>" + t + "</title>" + rest;
    var e := 7 + |t|;
    assert s[..7] == "<title>";
    assert OccursAtIgnoringCase(s, "<title>", 0);
    assert s[e..e + 8] == "</title>";
    assert OccursAtIgnoringCase(s, "</title>", e);
    forall j | 7 <= j < e ensures s[j] != '<' && s[j] != '"' && !Regex.IsLineTerminator(s[j]) {
      assert s[j] == t[j - 7];
    }
    LazyEndOverPlain(s, "</title>", 7, e);
    assert s[7..e] == t;
  }

  /** A page that starts with `"author":"a"` for a non-empty plain a gives back a. */
  lemma AuthorRoundTrip(a: string, rest: string)
    requires a != [] && PlainText(a)
    ensures var s := "\"author\":\"" + a + "\"" + rest;
      Group(AuthorField, s) == Some(a)
  {
    var s := "\"author\":\"" + a + "\"" + rest;
    var e := 10 + |a|;
    assert s[..10] == "\"author\":\"";
    assert OccursAtIgnoringCase(s, "\"author\":\"", 0);
    assert s[e] == '"';
    forall j | 10 <= j < e ensures s[j] != '"' {
      assert s[j] == a[j - 10];
    }
    assert FirstQuote(s, 10) == e by { QuoteScan(s, 10, e); }
    assert s[10..e] == a;
  }

  lemma {:induction false} QuoteScan(s: string, k: nat, e: nat)
    requires k <= e < |s| && s[e] == '"'
    requires forall j :: k <= j < e ==> s[j] != '"'
    ensures FirstQuote(s, k) == e
    decreases e - k
  {
    if k < e {
      QuoteScan(s, k + 1, e);
    }
  }

  /** A blank or missing `<title>` gives way to the meta title, and a
      non-blank one is kept. */
  lemma MetaOnlyAsFallback(s: string)
    ensures var tag := Group(TitleTag, s);
      tag.Some? && !IsBlank(StripYouTubeSuffix(tag.value)) ==>
        TitleAndAuthor(Ok(s)).0 == Some(StripYouTubeSuffix(tag.value))
    ensures var tag := Group(TitleTag, s);
      (tag.None? || IsBlank(StripYouTubeSuffix(tag.value))) && Group(MetaTitle, s).Some? ==>
        TitleAndAuthor(Ok(s)).0 == Group(MetaTitle, s)
  {
  }
}
