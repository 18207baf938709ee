/** CommandHandler.handle of the YouTube-MP3 bot: the links it finds in a
    message, how it routes the message (batch, single link, rejection), the
    batch's time estimate, its slices of parallel downloads, the success and
    failure bookkeeping and the summary it sends. The batch runs sequentially
    here; every download's outcome is an input. */
module CommandHandler {
  import opened Text
  import Utils

  // ---------------------------------------------------------------- the link pattern

  const WATCH: string := "youtube.com/watch?v="
  const SHORTS: string := "youtube.com/shorts/"
  const SHORT_LINK: string := "youtu.be/"

  /** The mandatory `https?://` at i: its length, or 0. */
  function SchemeLength(s: string, i: nat): (n: nat)
    ensures n == 0 || n == 7 || n == 8
  {
    if OccursAt(s, "https://", i) then 8
    else if OccursAt(s, "http://", i) then 7
    else 0
  }

  /** `(?:youtube\.com/(?:watch\?v=|shorts/)|youtu\.be/)` at j: its length, or 0. */
  function HostLength(s: string, j: nat): (n: nat)
    ensures n == 0 || n == |WATCH| || n == |SHORTS| || n == |SHORT_LINK|
    ensures n > 0 ==> j + n <= |s|
  {
    if OccursAt(s, WATCH, j) then |WATCH|
    else if OccursAt(s, SHORTS, j) then |SHORTS|
    else if OccursAt(s, SHORT_LINK, j) then |SHORT_LINK|
    else 0
  }

  /** Length of the match of `https?://(?:www\.)?(?:youtube\.com/(?:watch\?v=|shorts/)|youtu\.be/)[\w-]{11}`
      (case-sensitive) starting at i, or 0. Each optional part is taken when
      present: the alternatives differ in a fixed character, so backtracking
      never finds another match. */
  function UrlLengthAt(s: string, i: nat): (n: nat)
    ensures n > 0 ==> i + n <= |s| && n >= 7 + |SHORT_LINK| + Utils.ID_LENGTH
  {
    var a := SchemeLength(s, i);
    if a == 0 then 0
    else
      var b := i + a + (if OccursAt(s, "www.", i + a) then 4 else 0);
      var h := HostLength(s, b);
      if h == 0 || !Utils.IdAt(s, b + h) then 0
      else b + h + Utils.ID_LENGTH - i
  }

  /** The successive results of Matcher.find() from position i, each search
      resuming where the previous match ended. */
  function MatchesFrom(s: string, i: nat): (ms: seq<string>)
    requires i <= |s|
    decreases |s| - i
  {
    if i == |s| then []
    else
      var n := UrlLengthAt(s, i);
      if n > 0 then [s[i..i + n]] + MatchesFrom(s, i + n)
      else MatchesFrom(s, i + 1)
  }

  function AllMatches(s: string): seq<string> { MatchesFrom(s, 0) }

  /** Every match is a link of the pattern's language, and on its own it is
      matched whole: the pattern reads nothing outside the matched window. */
  lemma MatchesAreLinks(s: string, i: nat)
    requires i <= |s|
    ensures forall k :: 0 <= k < |MatchesFrom(s, i)| ==> IsLink(MatchesFrom(s, i)[k])
    ensures forall k :: 0 <= k < |MatchesFrom(s, i)| ==>
              UrlLengthAt(MatchesFrom(s, i)[k], 0) == |MatchesFrom(s, i)[k]|
  {
    forall k | 0 <= k < |MatchesFrom(s, i)|
      ensures IsLink(MatchesFrom(s, i)[k])
      ensures UrlLengthAt(MatchesFrom(s, i)[k], 0) == |MatchesFrom(s, i)[k]|
    {
      MatchIsLink(s, i, k);
      var m := MatchesFrom(s, i)[k];
      assert m[0..|m|] == m;
      LinkAt(m, 0, |m|);
    }
  }

  /** The k-th match from i, on its own, is matched whole. */
  lemma {:induction false} MatchIsLink(s: string, i: nat, k: nat)
    requires i <= |s| && k < |MatchesFrom(s, i)|
    ensures UrlLengthAt(MatchesFrom(s, i)[k], 0) == |MatchesFrom(s, i)[k]| > 0
    decreases |s| - i
  {
    var n := UrlLengthAt(s, i);
    if n > 0 {
      var rest := MatchesFrom(s, i + n);
      assert MatchesFrom(s, i) == [s[i..i + n]] + rest;
      if k == 0 {
        WindowMatch(s, i, n);
      } else {
        MatchIsLink(s, i + n, k - 1);
        assert MatchesFrom(s, i)[k] == rest[k - 1];
      }
    } else {
      assert MatchesFrom(s, i) == MatchesFrom(s, i + 1);
      MatchIsLink(s, i + 1, k);
    }
  }


  /** A literal lies inside the window w == s[i..i+n] at k exactly when it lies in s at i + k. */
  lemma WindowOccurs(s: string, i: nat, n: nat, p: string, k: nat)
    requires i + n <= |s|
    ensures OccursAt(s[i..i + n], p, k) ==> OccursAt(s, p, i + k)
    ensures k + |p| <= n && OccursAt(s, p, i + k) ==> OccursAt(s[i..i + n], p, k)
  {
    var w := s[i..i + n];
    if k + |p| <= n {
      var a, b := w[k..k + |p|], s[i + k..i + k + |p|];
      forall m | 0 <= m < |p| ensures a[m] == b[m] {
      }
      assert a == b;
    }
  }

  lemma WindowId(s: string, i: nat, n: nat, k: nat)
    requires i + n <= |s| && k + Utils.ID_LENGTH <= n
    ensures Utils.IdAt(s[i..i + n], k) <==> Utils.IdAt(s, i + k)
  {
    var w := s[i..i + n];
    assert forall j :: k <= j < k + Utils.ID_LENGTH ==> w[j] == s[i + j];
  }

  lemma WindowScheme(s: string, i: nat, n: nat)
    requires i + n <= |s| && n >= 8 && SchemeLength(s, i) > 0
    ensures SchemeLength(s[i..i + n], 0) == SchemeLength(s, i)
  {
    WindowOccurs(s, i, n, "https://", 0);
    WindowOccurs(s, i, n, "http://", 0);
  }

  lemma WindowHost(s: string, i: nat, n: nat, j: nat)
    requires i + j <= i + n <= |s| && HostLength(s, i + j) > 0 && j + HostLength(s, i + j) <= n
    ensures HostLength(s[i..i + n], j) == HostLength(s, i + j)
  {
    WindowOccurs(s, i, n, WATCH, j);
    WindowOccurs(s, i, n, SHORTS, j);
    WindowOccurs(s, i, n, SHORT_LINK, j);
  }

  lemma WindowMatch(s: string, i: nat, n: nat)
    requires n == UrlLengthAt(s, i) > 0
    ensures UrlLengthAt(s[i..i + n], 0) == n
  {
    var w := s[i..i + n];
    var a := SchemeLength(s, i);
    WindowScheme(s, i, n);
    WindowOccurs(s, i, n, "www.", a);
    var b := a + (if OccursAt(s, "www.", i + a) then 4 else 0);
    WindowHost(s, i, n, b);
    WindowId(s, i, n, b + HostLength(s, i + b));
  }

  // ---------------------------------------------------------------- the pattern's language

  /** The host forms the pattern allows, in its order of alternatives. */
  const LINK_HOSTS: seq<string> := [WATCH, SHORTS, SHORT_LINK]

  function Scheme(https: bool): string { if https then "https://" else "http://" }

  /** The literal part of a link: the scheme, the optional "www." and the
      host form h. */
  function Prefix(https: bool, www: bool, h: nat): string
    requires h < |LINK_HOSTS|
  {
    Scheme(https) + HostPart(www, h)
  }

  /** What follows the scheme: the optional "www." and the host form h. */
  function HostPart(www: bool, h: nat): string
    requires h < |LINK_HOSTS|
  {
    (if www then "www." else "") + LINK_HOSTS[h]
  }

  /** w is the prefix the alternatives name followed by exactly eleven id
      characters. */
  predicate LinkWith(w: string, https: bool, www: bool, h: nat) {
    h < |LINK_HOSTS|
    && |w| == |Prefix(https, www, h)| + Utils.ID_LENGTH
    && StartsWith(w, Prefix(https, www, h))
    && Utils.IdAt(w, |Prefix(https, www, h)|)
  }

  /** The strings the batch pattern matches whole, read off its alternatives:
      "http://" or "https://", an optional "www.", one of the three host forms
      and eleven characters of [A-Za-z0-9_-], all in exact letter case. */
  predicate IsLink(w: string) {
    exists https: bool, www: bool, h: nat | h < |LINK_HOSTS| :: LinkWith(w, https, www, h)
  }

  /** The scanner finds a match of length n at i exactly when the n characters
      there form a link of the pattern's language. */
  lemma LinkAt(s: string, i: nat, n: nat)
    requires i + n <= |s|
    ensures UrlLengthAt(s, i) == n > 0 <==> IsLink(s[i..i + n])
  {
    if UrlLengthAt(s, i) == n > 0 {
      LinkFromMatch(s, i, n);
    }
    if IsLink(s[i..i + n]) {
      MatchFromLink(s, i, n);
    }
  }

  lemma LinkFromMatch(s: string, i: nat, n: nat)
    requires n == UrlLengthAt(s, i) > 0
    ensures IsLink(s[i..i + n])
  {
    var w := s[i..i + n];
    var https, www, h := MatchedPrefix(s, i);
    var p := Prefix(https, www, h);
    WindowOccurs(s, i, n, p, 0);
    assert w[..|p|] == w[0..|p|];
    WindowId(s, i, n, |p|);
    assert LinkWith(w, https, www, h);
  }

  /** The alternatives a match at i took, as a literal prefix lying at i. */
  lemma MatchedPrefix(s: string, i: nat) returns (https: bool, www: bool, h: nat)
    requires UrlLengthAt(s, i) > 0
    ensures h < |LINK_HOSTS|
    ensures OccursAt(s, Prefix(https, www, h), i)
    ensures UrlLengthAt(s, i) == |Prefix(https, www, h)| + Utils.ID_LENGTH
    ensures Utils.IdAt(s, i + |Prefix(https, www, h)|)
  {
    UrlLengthParts(s, i);
    var a := SchemeLength(s, i);
    https := SchemeFound(s, i);
    www := OccursAt(s, "www.", i + a);
    var b := i + a + (if www then 4 else 0);
    h := HostFound(s, b);
    WwwJoined(s, i + a, www, h);
    OccursSplit(s, Scheme(https), HostPart(www, h), i);
  }

  /** The parts UrlLengthAt found, when it found a match. */
  lemma UrlLengthParts(s: string, i: nat)
    requires UrlLengthAt(s, i) > 0
    ensures SchemeLength(s, i) > 0
    ensures var b := i + SchemeLength(s, i) + (if OccursAt(s, "www.", i + SchemeLength(s, i)) then 4 else 0);
      HostLength(s, b) > 0 && Utils.IdAt(s, b + HostLength(s, b))
      && UrlLengthAt(s, i) == b + HostLength(s, b) + Utils.ID_LENGTH - i
  {
  }

  lemma SchemeFound(s: string, i: nat) returns (https: bool)
    requires SchemeLength(s, i) > 0
    ensures OccursAt(s, Scheme(https), i) && SchemeLength(s, i) == |Scheme(https)|
  {
    https := OccursAt(s, "https://", i);
  }

  lemma HostFound(s: string, b: nat) returns (h: nat)
    requires HostLength(s, b) > 0
    ensures h < |LINK_HOSTS| && OccursAt(s, LINK_HOSTS[h], b) && HostLength(s, b) == |LINK_HOSTS[h]|
  {
    h := if OccursAt(s, WATCH, b) then 0 else if OccursAt(s, SHORTS, b) then 1 else 2;
  }

  lemma WwwJoined(s: string, j: nat, www: bool, h: nat)
    requires h < |LINK_HOSTS| && www == OccursAt(s, "www.", j)
    requires OccursAt(s, LINK_HOSTS[h], j + (if www then 4 else 0))
    ensures OccursAt(s, HostPart(www, h), j)
  {
    var ww := if www then "www." else "";
    assert OccursAt(s, ww, j) by {
      if !www {
        assert s[j..j] == [];
      }
    }
    OccursSplit(s, ww, LINK_HOSTS[h], j);
  }

  lemma MatchFromLink(s: string, i: nat, n: nat)
    requires i + n <= |s| && IsLink(s[i..i + n])
    ensures UrlLengthAt(s, i) == n > 0
  {
    var w := s[i..i + n];
    var https: bool, www: bool, h: nat :| h < |LINK_HOSTS| && LinkWith(w, https, www, h);
    var p := Prefix(https, www, h);
    assert w[..|p|] == w[0..|p|];
    WindowOccurs(s, i, n, p, 0);
    WindowId(s, i, n, |p|);
    PrefixMatched(s, i, https, www, h);
  }

  /** A literal prefix followed by eleven id characters is matched whole. */
  lemma PrefixMatched(s: string, i: nat, https: bool, www: bool, h: nat)
    requires h < |LINK_HOSTS| && OccursAt(s, Prefix(https, www, h), i)
    requires Utils.IdAt(s, i + |Prefix(https, www, h)|)
    ensures UrlLengthAt(s, i) == |Prefix(https, www, h)| + Utils.ID_LENGTH
  {
    OccursSplit(s, Scheme(https), HostPart(www, h), i);
    SchemeMatched(s, i, https);
    var a := |Scheme(https)|;
    var b := WwwMatched(s, i + a, www, h);
    UrlLengthOf(s, i, a, b, |LINK_HOSTS[h]|);
  }

  /** UrlLengthAt once its scheme, its optional "www." and its host are known. */
  lemma UrlLengthOf(s: string, i: nat, a: nat, b: nat, hl: nat)
    requires SchemeLength(s, i) == a > 0
    requires b == i + a + (if OccursAt(s, "www.", i + a) then 4 else 0)
    requires HostLength(s, b) == hl > 0 && Utils.IdAt(s, b + hl)
    ensures UrlLengthAt(s, i) == b + hl + Utils.ID_LENGTH - i
  {
  }

  /** After the scheme: the optional "www." is taken exactly when present,
      and the host form follows it. */
  lemma WwwMatched(s: string, j: nat, www: bool, h: nat) returns (b: nat)
    requires h < |LINK_HOSTS| && OccursAt(s, HostPart(www, h), j)
    ensures OccursAt(s, "www.", j) == www
    ensures b == j + (if www then 4 else 0) && HostLength(s, b) == |LINK_HOSTS[h]|
  {
    var ww := if www then "www." else "";
    OccursSplit(s, ww, LINK_HOSTS[h], j);
    if !www {
      OccursExcludes(s, LINK_HOSTS[h], "www.", j, 0);
    }
    b := j + |ww|;
    HostMatched(s, b, h);
  }

  lemma SchemeMatched(s: string, i: nat, https: bool)
    requires OccursAt(s, Scheme(https), i)
    ensures SchemeLength(s, i) == |Scheme(https)|
  {
    if !https {
      OccursExcludes(s, "http://", "https://", i, 4);
    }
  }

  lemma HostMatched(s: string, b: nat, h: nat)
    requires h < |LINK_HOSTS| && OccursAt(s, LINK_HOSTS[h], b)
    ensures HostLength(s, b) == |LINK_HOSTS[h]|
  {
    if h == 1 {
      OccursExcludes(s, SHORTS, WATCH, b, 12);
    } else if h == 2 {
      OccursExcludes(s, SHORT_LINK, WATCH, b, 5);
      OccursExcludes(s, SHORT_LINK, SHORTS, b, 5);
    }
  }

  /** Matcher.find() semantics: a match starts wherever the search position
      holds one; the positions skipped hold none. */
  lemma {:induction false} MatchesLeftmost(s: string, i: nat, j: nat)
    requires i <= j < |s|
    requires forall m :: i <= m < j ==> UrlLengthAt(s, m) == 0
    ensures UrlLengthAt(s, j) > 0 ==>
              MatchesFrom(s, i) == [s[j..j + UrlLengthAt(s, j)]] + MatchesFrom(s, j + UrlLengthAt(s, j))
    decreases j - i
  {
    if i < j {
      MatchesLeftmost(s, i + 1, j);
      assert UrlLengthAt(s, i) == 0;
      MatchesSkip(s, i);
    } else if UrlLengthAt(s, j) > 0 {
      MatchesTake(s, j);
    }
  }

  /** find() from a position holding no match resumes one character later. */
  lemma MatchesSkip(s: string, i: nat)
    requires i < |s| && UrlLengthAt(s, i) == 0
    ensures MatchesFrom(s, i) == MatchesFrom(s, i + 1)
  {
  }

  /** find() from a position holding a match returns it and resumes after it. */
  lemma MatchesTake(s: string, i: nat)
    requires i < |s| && UrlLengthAt(s, i) > 0
    ensures MatchesFrom(s, i) == [s[i..i + UrlLengthAt(s, i)]] + MatchesFrom(s, i + UrlLengthAt(s, i))
  {
  }

  // ---------------------------------------------------------------- LinkedHashSet

  /** LinkedHashSet.add: appends an element not yet present. */
  function Add(seen: seq<string>, x: string): (r: seq<string>)
    ensures x in r && forall y :: y in r <==> y in seen || y == x
  {
    if x in seen then seen else seen + [x]
  }

  /** Adding xs one by one, in order. */
  function AddAll(seen: seq<string>, xs: seq<string>): seq<string>
    decreases |xs|
  {
    if xs == [] then seen else AddAll(Add(seen, xs[0]), xs[1..])
  }

  /** The distinct matches in first-seen order. */
  function Dedup(xs: seq<string>): seq<string> { AddAll([], xs) }

  predicate NoDuplicates(xs: seq<string>) {
    forall i, j :: 0 <= i < j < |xs| ==> xs[i] != xs[j]
  }

  /** The first index holding x. */
  function FirstIndex(xs: seq<string>, x: string): (k: nat)
    requires x in xs
    ensures k < |xs| && xs[k] == x && forall m :: 0 <= m < k ==> xs[m] != x
  {
    if xs[0] == x then 0 else 1 + FirstIndex(xs[1..], x)
  }

  /** AddAll keeps what it had, in place, adds only new elements of xs, each once. */
  lemma {:induction false} AddAllShape(seen: seq<string>, xs: seq<string>)
    requires NoDuplicates(seen)
    ensures var r := AddAll(seen, xs);
      NoDuplicates(r) && |seen| <= |r| && r[..|seen|] == seen
      && (forall y :: y in r <==> y in seen || y in xs)
    decreases |xs|
  {
    if xs != [] {
      var next := Add(seen, xs[0]);
      AddAllShape(next, xs[1..]);
      var r := AddAll(next, xs[1..]);
      assert r[..|seen|] == r[..|next|][..|seen|];
      forall y ensures y in r <==> y in seen || y in xs {
        assert y in xs <==> y == xs[0] || y in xs[1..];
      }
    }
  }

  /** What AddAll appends is new and comes from xs. */
  lemma AddAllNew(seen: seq<string>, xs: seq<string>)
    requires NoDuplicates(seen)
    ensures var r := AddAll(seen, xs);
      |seen| <= |r| && r[..|seen|] == seen
      && forall i :: |seen| <= i < |r| ==> r[i] !in seen && r[i] in xs
  {
    AddAllShape(seen, xs);
    var r := AddAll(seen, xs);
    forall i | |seen| <= i < |r| ensures r[i] !in seen && r[i] in xs {
      forall m | 0 <= m < |seen| ensures seen[m] != r[i] {
        assert r[m] == seen[m];
      }
    }
  }

  /** The elements AddAll appends come in the order of their first occurrence in xs. */
  lemma {:induction false} AddAllOrder(seen: seq<string>, xs: seq<string>)
    requires NoDuplicates(seen)
    ensures var r := AddAll(seen, xs);
      forall i, j :: |seen| <= i < j < |r| && r[i] in xs && r[j] in xs ==>
                       FirstIndex(xs, r[i]) < FirstIndex(xs, r[j])
    decreases |xs|
  {
    if xs != [] {
      var next := Add(seen, xs[0]);
      AddAllShape(seen, [xs[0]]);
      assert AddAll(seen, [xs[0]]) == next;
      AddAllOrder(next, xs[1..]);
      AddAllNew(next, xs[1..]);
      if xs[0] in seen {
        OrderAfterKnown(seen, xs);
      } else {
        OrderAfterNew(seen, xs);
      }
    }
  }

  lemma OrderAfterKnown(seen: seq<string>, xs: seq<string>)
    requires NoDuplicates(seen) && xs != [] && xs[0] in seen
    requires var r := AddAll(seen, xs[1..]);
      (forall i :: |seen| <= i < |r| ==> r[i] !in seen && r[i] in xs[1..])
      && forall i, j :: |seen| <= i < j < |r| && r[i] in xs[1..] && r[j] in xs[1..] ==>
                          FirstIndex(xs[1..], r[i]) < FirstIndex(xs[1..], r[j])
    ensures var r := AddAll(seen, xs);
      forall i, j :: |seen| <= i < j < |r| && r[i] in xs && r[j] in xs ==>
                       FirstIndex(xs, r[i]) < FirstIndex(xs, r[j])
  {
    var r := AddAll(seen, xs);
    assert r == AddAll(seen, xs[1..]);
    forall i, j | |seen| <= i < j < |r| && r[i] in xs && r[j] in xs
      ensures FirstIndex(xs, r[i]) < FirstIndex(xs, r[j])
    {
      FirstIndexTail(xs, r[i]);
      FirstIndexTail(xs, r[j]);
    }
  }

  lemma OrderAfterNew(seen: seq<string>, xs: seq<string>)
    requires NoDuplicates(seen) && xs != [] && xs[0] !in seen
    requires var next := seen + [xs[0]]; var r := AddAll(next, xs[1..]);
      |next| <= |r| && r[..|next|] == next
      && (forall i :: |next| <= i < |r| ==> r[i] !in next && r[i] in xs[1..])
      && forall i, j :: |next| <= i < j < |r| && r[i] in xs[1..] && r[j] in xs[1..] ==>
                          FirstIndex(xs[1..], r[i]) < FirstIndex(xs[1..], r[j])
    ensures var r := AddAll(seen, xs);
      forall i, j :: |seen| <= i < j < |r| && r[i] in xs && r[j] in xs ==>
                       FirstIndex(xs, r[i]) < FirstIndex(xs, r[j])
  {
    var next := seen + [xs[0]];
    var r := AddAll(seen, xs);
    assert r == AddAll(next, xs[1..]);
    assert r[|seen|] == r[..|next|][|seen|] == xs[0];
    forall i, j | |seen| <= i < j < |r| && r[i] in xs && r[j] in xs
      ensures FirstIndex(xs, r[i]) < FirstIndex(xs, r[j])
    {
      assert r[j] !in next;
      FirstIndexTail(xs, r[j]);
      if i > |seen| {
        assert r[i] !in next;
        FirstIndexTail(xs, r[i]);
      }
    }
  }

  lemma FirstIndexTail(xs: seq<string>, y: string)
    requires xs != [] && y in xs && y != xs[0]
    ensures y in xs[1..] && FirstIndex(xs, y) == 1 + FirstIndex(xs[1..], y)
  {
  }

  /** The deduplicated list: no repeats, exactly the matched links, in
      first-seen order. */
  lemma DedupSpec(xs: seq<string>)
    ensures var d := Dedup(xs);
      NoDuplicates(d) && (forall y :: y in d <==> y in xs)
      && forall i, j :: 0 <= i < j < |d| && d[i] in xs && d[j] in xs ==> FirstIndex(xs, d[i]) < FirstIndex(xs, d[j])
  {
    AddAllShape([], xs);
    AddAllOrder([], xs);
  }

  /** One find() step of the extraction loop: a match at i is added, and
      otherwise the scan moves on by one character. */
  lemma ExtractStep(seen: seq<string>, s: string, i: nat)
    requires i < |s|
    ensures var n := UrlLengthAt(s, i);
      AddAll(seen, MatchesFrom(s, i)) ==
        if n > 0 then AddAll(Add(seen, s[i..i + n]), MatchesFrom(s, i + n))
        else AddAll(seen, MatchesFrom(s, i + 1))
  {
    var n := UrlLengthAt(s, i);
    if n > 0 {
      MatchesTake(s, i);
      var ms := MatchesFrom(s, i);
      assert ms[1..] == MatchesFrom(s, i + n);
    } else {
      MatchesSkip(s, i);
    }
  }

  /** The `while (matcher.find()) urlSet.add(matcher.group())` loop. */
  method ExtractUrls(text: string) returns (urls: seq<string>)
    ensures urls == Dedup(AllMatches(text))
  {
    ghost var goal := Dedup(AllMatches(text));
    urls := [];
    var i := 0;
    while i < |text|
      invariant 0 <= i <= |text|
      invariant AddAll(urls, MatchesFrom(text, i)) == goal
      decreases |text| - i
    {
      var n := UrlLengthAt(text, i);
      ExtractStep(urls, text, i);
      if n > 0 {
        urls := Add(urls, text[i..i + n]);
        i := i + n;
      } else {
        i := i + 1;
      }
    }
  }

  // ---------------------------------------------------------------- routing

  /** The part of an update handle looks at: no message at all, or a message
      whose text may be missing. */
  datatype Incoming = NoMessage | Message(text: Option<string>)

  /** What handle does with an update. Ignored and Rejected return false
      (Rejected after sending an error message); Single hands the message's
      whole text to the download chain; Batch starts the batch. */
  datatype Route = Ignored | Rejected | Single(text: string) | Batch(urls: seq<string>)

  /** Message.hasText(): the text is non-null and non-empty. */
  predicate HasText(m: Incoming) { m.Message? && m.text.Some? && m.text.value != [] }

  function RouteOf(m: Incoming): (r: Route)
    ensures !HasText(m) ==> r == Ignored
    ensures r.Single? ==> HasText(m) && r.text == m.text.value
    ensures r.Batch? ==> r.urls == Dedup(AllMatches(m.text.value)) && |r.urls| >= 2
  {
    if !HasText(m) then Ignored
    else
      var text := m.text.value;
      var urls := Dedup(AllMatches(text));
      if |urls| > 1 then Batch(urls)
      else if |urls| == 1 && Utils.IsValidYouTubeUrl(Some(text)) then Single(text)
      else Rejected
  }

  /** handle's return value. */
  predicate Handled(m: Incoming) { RouteOf(m).Single? || RouteOf(m).Batch? }

  /** handle returns true exactly for two or more distinct links, or for one
      link in a text the stricter Utils check accepts; no link means rejection. */
  lemma HandledIff(text: string)
    requires text != []
    ensures var urls := Dedup(AllMatches(text));
      Handled(Message(Some(text))) <==> |urls| >= 2 || (|urls| == 1 && Utils.IsValidYouTubeUrl(Some(text)))
    ensures AllMatches(text) == [] ==> RouteOf(Message(Some(text))) == Rejected
  {
  }

  /** The same link repeated takes the single path, which gets the whole text. */
  lemma RepeatedLinkIsSingle(text: string)
    requires text != [] && AllMatches(text) != [] && Utils.IsValidYouTubeUrl(Some(text))
    requires forall k :: 0 <= k < |AllMatches(text)| ==> AllMatches(text)[k] == AllMatches(text)[0]
    ensures RouteOf(Message(Some(text))) == Single(text)
  {
    var xs := AllMatches(text);
    AddAllKnown([xs[0]], xs[1..]);
    assert Add([], xs[0]) == [xs[0]];
    assert Dedup(xs) == AddAll(Add([], xs[0]), xs[1..]);
  }

  /** Adding elements already present changes nothing. */
  lemma {:induction false} AddAllKnown(seen: seq<string>, xs: seq<string>)
    requires forall k :: 0 <= k < |xs| ==> xs[k] in seen
    ensures AddAll(seen, xs) == seen
    decreases |xs|
  {
    if xs != [] {
      AddAllKnown(seen, xs[1..]);
    }
  }

  // ---------------------------------------------------------------- the lone shorts link

  const SHORTS_PREFIX: string := "https://youtube.com/shorts/"

  /** A message holding nothing but a shorts link is one match of the batch
      pattern, but Utils' pattern has no shorts host, so handle rejects it. */
  lemma LoneShortsRejected(id: string)
    requires |id| == Utils.ID_LENGTH && forall k :: 0 <= k < |id| ==> Utils.IsIdChar(id[k])
    ensures AllMatches(SHORTS_PREFIX + id) == [SHORTS_PREFIX + id]
    ensures RouteOf(Message(Some(SHORTS_PREFIX + id))) == Rejected
  {
    var text := SHORTS_PREFIX + id;
    ShortsLinkMatches(id);
    ShortsLinkInvalid(id);
    assert Add([], text) == [text];
    assert AddAll([], [text]) == AddAll(Add([], text), []);
  }

  lemma ShortsLinkMatches(id: string)
    requires |id| == Utils.ID_LENGTH && forall k :: 0 <= k < |id| ==> Utils.IsIdChar(id[k])
    ensures AllMatches(SHORTS_PREFIX + id) == [SHORTS_PREFIX + id]
  {
    var text := SHORTS_PREFIX + id;
    assert text[..8] == "https://";
    assert OccursAt(text, "https://", 0);
    assert text[8] == 'y';
    assert !OccursAt(text, "www.", 8);
    assert text[20] == 's';
    assert !OccursAt(text, WATCH, 8);
    assert text[8..27] == SHORTS;
    assert OccursAt(text, SHORTS, 8);
    assert text[27..38] == id;
    assert Utils.IdAt(text, 27);
    assert UrlLengthAt(text, 0) == |text|;
    assert text[0..|text|] == text;
    assert MatchesFrom(text, |text|) == [];
    assert MatchesFrom(text, 0) == [text] + MatchesFrom(text, |text|);
  }

  /** Neither of Utils' hosts occurs anywhere in a shorts link: it has no '?',
      and its only '.' is not preceded by "youtu". */
  lemma ShortsLinkInvalid(id: string)
    requires |id| == Utils.ID_LENGTH && forall k :: 0 <= k < |id| ==> Utils.IsIdChar(id[k])
    ensures !Utils.IsValidYouTubeUrl(Some(SHORTS_PREFIX + id))
  {
    var text := SHORTS_PREFIX + id;
    forall j | 0 <= j < |text| ensures Lower(text[j]) != '?' && (Lower(text[j]) == '.' ==> j == 15) {
      if j >= 27 {
        assert text[j] == id[j - 27];
      }
    }
    forall j | 0 <= j <= |text| ensures !Utils.MatchesAt(text, j) {
      NoHostAt(text, j);
      Utils.IdStartExact(text, j);
    }
    Utils.ValidIffPatternOccurs(text);
  }

  lemma NoHostAt(text: string, j: nat)
    requires |text| == 38 && text[..27] == SHORTS_PREFIX
    requires forall k :: 0 <= k < |text| ==> Lower(text[k]) != '?' && (Lower(text[k]) == '.' ==> k == 15)
    ensures Utils.IdStartAt(text, j) == None
  {
    var x := j + Utils.SchemeLength(text, j);
    var y := x + Utils.WwwLength(text, x);
    NoHost(text, y);
  }

  lemma NoHost(text: string, y: nat)
    requires |text| == 38 && text[..27] == SHORTS_PREFIX
    requires forall k :: 0 <= k < |text| ==> Lower(text[k]) != '?' && (Lower(text[k]) == '.' ==> k == 15)
    ensures Utils.HostLength(text, y) == 0
  {
    if y + 17 < |text| {
      assert Utils.WATCH_HOST[17] == '?' && Lower('?') == '?';
      Utils.NotOccursAt(text, Utils.WATCH_HOST, y, 17);
    }
    if y == 10 {
      assert text[10] == 'u' && Utils.SHORT_HOST[0] == 'y';
      Utils.NotOccursAt(text, Utils.SHORT_HOST, y, 0);
    } else if y + 5 < |text| {
      assert Utils.SHORT_HOST[5] == '.' && Lower('.') == '.';
      Utils.NotOccursAt(text, Utils.SHORT_HOST, y, 5);
    }
  }

  // ---------------------------------------------------------------- the estimate

  /** Java's (int) cast of a double: saturates at the int range. */
  function ToInt(x: int): (r: int)
    ensures INT_MIN <= r <= INT_MAX
    ensures INT_MIN <= x <= INT_MAX ==> r == x
    ensures x > INT_MAX ==> r == INT_MAX
    ensures x < INT_MIN ==> r == INT_MIN
  {
    if x > INT_MAX then INT_MAX else if x < INT_MIN then INT_MIN else x
  }

  /** Math.ceil of the exact quotient a / b. */
  function CeilDiv(a: int, b: int): int
    requires b != 0
  {
    if b > 0 then -((-a) / b) else -(a / (-b))
  }

  /** `(int)Math.ceil(n * 60.0 / p)`: one minute per link, p links at a time.
      For p == 0 the double quotient is +Infinity (NaN when n == 0, cast to 0). */
  function Estimate(n: nat, p: int): int
  {
    if p == 0 then (if n == 0 then 0 else INT_MAX)
    else ToInt(CeilDiv(60 * n, p))
  }

  /** For a positive parallelism the estimate is the least number of seconds
      that covers n minutes of work spread over p workers, capped at the int
      range; a non-positive parallelism never gives a positive estimate unless
      it is zero and there is work. */
  lemma EstimateIsCeiling(n: nat, p: int)
    ensures p > 0 ==> 0 <= Estimate(n, p) <= INT_MAX
    ensures p > 0 && Estimate(n, p) < INT_MAX ==>
      (Estimate(n, p) - 1) * p < 60 * n <= Estimate(n, p) * p
    ensures p > 0 && Estimate(n, p) == INT_MAX ==> (INT_MAX - 1) * p < 60 * n
    ensures p < 0 ==> Estimate(n, p) <= 0
    ensures p == 0 ==> (Estimate(n, p) == INT_MAX <==> n > 0)
  {
    if p > 0 {
      var q := (-(60 * n)) / p;
      var m := (-(60 * n)) % p;
      assert -(60 * n) == q * p + m && 0 <= m < p;
      var c := -q;
      assert c * p == 60 * n + m;
      assert c * p - p < 60 * n <= c * p;
      assert c >= 0;
    } else if p < 0 {
      assert (60 * n) / (-p) >= 0;
    }
  }

  /** The announcement sent before a batch starts: it opens with the number
      of links and the parallelism, and closes with the estimate in seconds
      and in whole minutes. */
  function Announcement(n: nat, p: int): (r: string)
    ensures StartsWith(r, "\U{1F92F} Detected " + IntToString(n) + " YouTube links! Up to " + IntToString(p) + " ")
    ensures EndsWith(r, "time: " + IntToString(Estimate(n, p)) + " seconds ("
                        + IntToString(JavaDiv(Estimate(n, p), 60)) + " min)")
  {
    var approx := Estimate(n, p);
    var head := "\U{1F92F} Detected " + IntToString(n) + " YouTube links! Up to " + IntToString(p) + " ";
    var middle := "will be processed in parallel. Files will be sent as soon as each is ready.\nApproximate export ";
    var tail := "time: " + IntToString(approx) + " seconds (" + IntToString(JavaDiv(approx, 60)) + " min)";
    Framed(head, middle, tail);
    head + middle + tail
  }

  // ---------------------------------------------------------------- slices

  function Min(a: int, b: int): int { if a <= b then a else b }

  /** Consecutive slices of at most p elements, in order. */
  function SlicesOf(xs: seq<string>, p: nat): seq<seq<string>>
    requires p > 0
    decreases |xs|
  {
    if xs == [] then []
    else if |xs| <= p then [xs]
    else [xs[..p]] + SlicesOf(xs[p..], p)
  }

  /** Concatenation of a list of slices. */
  function Concat(ss: seq<seq<string>>): seq<string>
  {
    if ss == [] then [] else ss[0] + Concat(ss[1..])
  }

  /** The walk `for (i = 0; i < n; i += p) invokeAll(tasks.subList(i, min(i + p, n)))`,
      collecting the sublists it hands over. */
  method Slices(urls: seq<string>, p: int) returns (slices: seq<seq<string>>)
    requires p > 0
    ensures slices == SlicesOf(urls, p)
  {
    var n := |urls|;
    slices := [];
    var i := 0;
    while i < n
      invariant 0 <= i < n + p
      invariant slices + SlicesOf(urls[Min(i, n)..], p) == SlicesOf(urls, p)
      decreases n - i
    {
      var end := Min(i + p, n);
      var rest := urls[i..];
      if n - i > p {
        assert rest[..p] == urls[i..end] && rest[p..] == urls[end..];
      } else {
        assert rest == urls[i..end] && urls[end..] == [];
      }
      slices := slices + [urls[i..end]];
      i := i + p;
    }
    assert urls[Min(i, n)..] == [];
  }

  /** The slices put back together give the task list. */
  lemma {:induction false} SlicesConcat(xs: seq<string>, p: nat)
    requires p > 0
    ensures Concat(SlicesOf(xs, p)) == xs
    decreases |xs|
  {
    if |xs| > p {
      SlicesConcat(xs[p..], p);
      assert xs == xs[..p] + xs[p..];
    } else if xs != [] {
      assert Concat([xs]) == xs + Concat([]);
    }
  }

  /** No slice is empty or longer than the pool. */
  lemma {:induction false} SlicesBounded(xs: seq<string>, p: nat)
    requires p > 0
    ensures forall k :: 0 <= k < |SlicesOf(xs, p)| ==> 0 < |SlicesOf(xs, p)[k]| <= p
    decreases |xs|
  {
    if |xs| > p {
      SlicesBounded(xs[p..], p);
    }
  }

  /** There are ceil(n / p) slices: the fewest strides of p that cover n. */
  lemma {:induction false} SlicesCount(xs: seq<string>, p: nat)
    requires p > 0
    ensures (|SlicesOf(xs, p)| - 1) * p < |xs| <= |SlicesOf(xs, p)| * p
    decreases |xs|
  {
    var n := |xs|;
    if n > p {
      SlicesCount(xs[p..], p);
      var c := |SlicesOf(xs[p..], p)|;
      assert (c - 1) * p == c * p - p;
      assert (c + 1) * p == c * p + p;
    }
  }

  /** Slice k is the sublist [k * p, min(k * p + p, n)). */
  lemma {:induction false} SliceContents(xs: seq<string>, p: nat, k: nat)
    requires p > 0 && k < |SlicesOf(xs, p)|
    ensures k * p < |xs|
    ensures SlicesOf(xs, p)[k] == xs[k * p..Min(k * p + p, |xs|)]
    decreases k
  {
    if k > 0 {
      SliceContents(xs[p..], p, k - 1);
      assert (k - 1) * p + p == k * p;
      assert xs[p..][(k - 1) * p..Min((k - 1) * p + p, |xs| - p)] == xs[k * p..Min(k * p + p, |xs|)];
    }
  }

  // ---------------------------------------------------------------- outcomes

  /** How one task ended: processDownloadWithStatus returned, or threw. */
  datatype TaskOutcome = Returned(ok: bool) | Threw(error: Exception)

  /** The counters done[0], error[0] and the errorDetails list. */
  datatype BatchTally = BatchTally(done: nat, error: nat, errorDetails: seq<string>)

  /** The errorDetails entry of a task that threw: "url (Kind: message)". */
  function Detail(url: string, e: Exception): string {
    url + " (" + e.SimpleName() + ": " + e.Message() + ")"
  }

  /** One task's bookkeeping: success bumps done; a false result or an
      exception bumps error and appends one entry to errorDetails. */
  function Record(t: BatchTally, url: string, o: TaskOutcome): (r: BatchTally)
    ensures r.done + r.error == t.done + t.error + 1
    ensures r.done == t.done + 1 <==> o == Returned(true)
    ensures r.done > t.done ==> r.errorDetails == t.errorDetails
    ensures r.error > t.error ==>
      r.errorDetails == t.errorDetails + [if o.Threw? then Detail(url, o.error) else url]
  {
    match o
    case Returned(true) => t.(done := t.done + 1)
    case Returned(false) => t.(error := t.error + 1, errorDetails := t.errorDetails + [url])
    case Threw(e) => t.(error := t.error + 1, errorDetails := t.errorDetails + [Detail(url, e)])
  }

  /** The bookkeeping after the tasks for urls have run in order. */
  function TallyOf(start: BatchTally, urls: seq<string>, outcome: string -> TaskOutcome): BatchTally
    decreases |urls|
  {
    if urls == [] then start
    else TallyOf(Record(start, urls[0], outcome(urls[0])), urls[1..], outcome)
  }

  const NoTasks := BatchTally(0, 0, [])

  /** How many of urls succeed. */
  function Successes(urls: seq<string>, outcome: string -> TaskOutcome): nat
    decreases |urls|
  {
    if urls == [] then 0
    else (if outcome(urls[0]) == Returned(true) then 1 else 0) + Successes(urls[1..], outcome)
  }

  /** The entries that failing urls contribute, in order. */
  function Failures(urls: seq<string>, outcome: string -> TaskOutcome): seq<string>
    decreases |urls|
  {
    if urls == [] then []
    else
      var o := outcome(urls[0]);
      (match o
       case Returned(true) => []
       case Returned(false) => [urls[0]]
       case Threw(e) => [Detail(urls[0], e)])
      + Failures(urls[1..], outcome)
  }

  /** Without interruption every task is counted exactly once:
      done + error == n and |errorDetails| == error. */
  lemma {:induction false} TallyTotals(start: BatchTally, urls: seq<string>, outcome: string -> TaskOutcome)
    requires |start.errorDetails| == start.error
    ensures var t := TallyOf(start, urls, outcome);
      t.done + t.error == start.done + start.error + |urls| && |t.errorDetails| == t.error
    decreases |urls|
  {
    if urls != [] {
      TallyTotals(Record(start, urls[0], outcome(urls[0])), urls[1..], outcome);
    }
  }

  /** done counts exactly the tasks that returned true. */
  lemma {:induction false} TallySuccesses(start: BatchTally, urls: seq<string>, outcome: string -> TaskOutcome)
    ensures TallyOf(start, urls, outcome).done == start.done + Successes(urls, outcome)
    decreases |urls|
  {
    if urls != [] {
      TallySuccesses(Record(start, urls[0], outcome(urls[0])), urls[1..], outcome);
    }
  }

  /** errorDetails lists the failing tasks in order: the bare url for a false
      result, "url (Kind: message)" for an exception. */
  lemma {:induction false} TallyFailures(start: BatchTally, urls: seq<string>, outcome: string -> TaskOutcome)
    ensures TallyOf(start, urls, outcome).errorDetails == start.errorDetails + Failures(urls, outcome)
    decreases |urls|
  {
    if urls != [] {
      var next := Record(start, urls[0], outcome(urls[0]));
      TallyFailures(next, urls[1..], outcome);
    }
  }

  lemma {:induction false} TallyAppend(start: BatchTally, xs: seq<string>, ys: seq<string>, outcome: string -> TaskOutcome)
    ensures TallyOf(start, xs + ys, outcome) == TallyOf(TallyOf(start, xs, outcome), ys, outcome)
    decreases |xs|
  {
    if xs == [] {
      assert xs + ys == ys;
    } else {
      assert (xs + ys)[1..] == xs[1..] + ys;
      TallyAppend(Record(start, xs[0], outcome(xs[0])), xs[1..], ys, outcome);
    }
  }

  /** One invokeAll call: the tasks of one slice, each recorded in turn. */
  method RunSlice(t: BatchTally, slice: seq<string>, outcome: string -> TaskOutcome) returns (r: BatchTally)
    ensures r == TallyOf(t, slice, outcome)
  {
    r := t;
    var j := 0;
    while j < |slice|
      invariant 0 <= j <= |slice|
      invariant TallyOf(r, slice[j..], outcome) == TallyOf(t, slice, outcome)
    {
      assert slice[j..][1..] == slice[j + 1..];
      r := Record(r, slice[j], outcome(slice[j]));
      j := j + 1;
    }
  }

  /** The batch thread: a fixed pool of p workers (newFixedThreadPool throws
      for p <= 0, and the thread dies before any task runs or any summary is
      sent), then the slices one after the other. */
  method RunBatch(urls: seq<string>, p: int, outcome: string -> TaskOutcome) returns (r: Option<BatchTally>)
    ensures p <= 0 ==> r == None
    ensures p > 0 ==> r == Some(TallyOf(NoTasks, urls, outcome))
  {
    if p <= 0 {
      return None;
    }
    var slices := Slices(urls, p);
    SlicesConcat(urls, p);
    var t := NoTasks;
    var k := 0;
    while k < |slices|
      invariant 0 <= k <= |slices|
      invariant TallyOf(t, Concat(slices[k..]), outcome) == TallyOf(NoTasks, urls, outcome)
    {
      assert Concat(slices[k..]) == slices[k] + Concat(slices[k + 1..]);
      TallyAppend(t, slices[k], Concat(slices[k + 1..]), outcome);
      t := RunSlice(t, slices[k], outcome);
      k := k + 1;
    }
    return Some(t);
  }

  // ---------------------------------------------------------------- the summary

  /** The failure lines of the summary: each entry followed by a newline. */
  function FailedBlock(details: seq<string>): string
    decreases |details|
  {
    if details == [] then "" else details[0] + "\n" + FailedBlock(details[1..])
  }

  /** Index of the first newline of s, or |s|. */
  function FirstNewline(s: string): (k: nat)
    ensures k <= |s| && (k < |s| ==> s[k] == '\n')
    ensures forall j :: 0 <= j < k ==> s[j] != '\n'
  {
    if s == [] || s[0] == '\n' then 0 else 1 + FirstNewline(s[1..])
  }

  /** The lines of a text, each ended by a newline or by the end of the text. */
  function Lines(s: string): seq<string>
    decreases |s|
  {
    if s == [] then []
    else
      var k := FirstNewline(s);
      if k == |s| then [s] else [s[..k]] + Lines(s[k + 1..])
  }

  /** Reading the failure block back line by line gives the entries, as long
      as no entry holds a newline itself. */
  lemma {:induction false} FailedBlockLines(details: seq<string>)
    requires forall k :: 0 <= k < |details| ==> '\n' !in details[k]
    ensures Lines(FailedBlock(details)) == details
    decreases |details|
  {
    if details != [] {
      var d := details[0];
      var s := FailedBlock(details);
      assert s == d + "\n" + FailedBlock(details[1..]);
      FirstNewlineAfter(d, FailedBlock(details[1..]));
      assert s[..|d|] == d && s[|d| + 1..] == FailedBlock(details[1..]);
      FailedBlockLines(details[1..]);
    }
  }

  lemma FirstNewlineAfter(d: string, rest: string)
    requires '\n' !in d
    ensures FirstNewline(d + "\n" + rest) == |d|
  {
    var s := d + "\n" + rest;
    var k := FirstNewline(s);
    assert s[|d|] == '\n';
    assert forall j :: 0 <= j < |d| ==> s[j] == d[j];
  }

  lemma {:induction false} FailedBlockSnoc(details: seq<string>, x: string)
    ensures FailedBlock(details + [x]) == FailedBlock(details) + x + "\n"
    decreases |details|
  {
    if details == [] {
      assert [x][1..] == [];
    } else {
      assert (details + [x])[1..] == details[1..] + [x];
      FailedBlockSnoc(details[1..], x);
    }
  }

  const SUMMARY_HEAD: string := "\U{1F389} [SUMMARY] Batch complete!\n"
  const FAILED_HEAD: string := "\nFailed URLs:\n"

  /** The counter and timing lines under the summary's first line. */
  function CounterLines(t: BatchTally, elapsedSec: int): string {
    "[SUCCESS \U{2705}] Processed: " + IntToString(t.done) + "\n"
    + "[ERROR \U{2622}\U{FE0F}\U{2623}\U{FE0F}] Failed: " + IntToString(t.error) + "\n"
    + "\U{23F1}\U{FE0F} Export time: " + IntToString(elapsedSec) + " seconds ("
    + IntToString(JavaDiv(elapsedSec, 60)) + " min)\n"
  }

  /** The summary sent when the batch ends: the counters, the elapsed time,
      then the failure list exactly when there is one. */
  function SummaryText(t: BatchTally, elapsedSec: int): (r: string)
    ensures StartsWith(r, SUMMARY_HEAD + CounterLines(t, elapsedSec))
    ensures t.errorDetails != [] ==> EndsWith(r, FAILED_HEAD + FailedBlock(t.errorDetails))
    ensures t.errorDetails == [] ==> r == SUMMARY_HEAD + CounterLines(t, elapsedSec)
  {
    var head := SUMMARY_HEAD + CounterLines(t, elapsedSec);
    if t.errorDetails == [] then head
    else
      var r := head + (FAILED_HEAD + FailedBlock(t.errorDetails));
      assert r[..|head|] == head;
      r
  }

  /** `(batchEnd - batchStart) / 1000`: whole seconds, truncated. */
  function ElapsedSeconds(startMillis: int, endMillis: int): int {
    JavaDiv(endMillis - startMillis, 1000)
  }

  /** `for (String err : errorDetails) summary.append(err).append("\n")`. */
  method AppendFailedLines(head: string, details: seq<string>) returns (summary: string)
    ensures summary == head + FailedBlock(details)
  {
    summary := head;
    var i := 0;
    while i < |details|
      invariant 0 <= i <= |details|
      invariant summary == head + FailedBlock(details[..i])
    {
      FailedBlockSnoc(details[..i], details[i]);
      assert details[..i + 1] == details[..i] + [details[i]];
      summary := summary + details[i] + "\n";
      i := i + 1;
    }
    assert details[..i] == details;
  }

  /** The StringBuilder that assembles the summary. */
  method BuildSummary(t: BatchTally, elapsedSec: int) returns (summary: string)
    ensures summary == SummaryText(t, elapsedSec)
  {
    summary := SUMMARY_HEAD + CounterLines(t, elapsedSec);
    if t.errorDetails != [] {
      summary := AppendFailedLines(summary + FAILED_HEAD, t.errorDetails);
    }
  }
}
