/** The file-name normaliser of the YouTube-MP3 bot: an ordered table of regex
    rewrites over the trimmed, lower-cased name, a whitespace clean-up, and
    word capitalisation; the "channel - title" composition; and the bulk
    rename over a directory listing. */
module FileNameSanitizer {
  import opened Text
  import opened Regex

  // ---------------------------------------------------------------- rule table

  function Lit(s: string): Pattern { Alternatives([Literal(s, false)]) }
  function LitIgnoringCase(s: string): Pattern { Alternatives([Literal(s, true)]) }

  /** Number of cleaning rules. */
  const RuleCount: nat := 42

  /** The k-th cleaning rule (0-based, declaration order). Every replacement
      is empty, a space or an apostrophe. */
  function RuleAt(k: nat): (r: Rule)
    requires k < RuleCount
    ensures r.replacement == "" || r.replacement == " " || r.replacement == "'"
  {
    if k < 14 then MarkupRule(k) else if k < 28 then WordRule(k) else SymbolRule(k)
  }

  /** Rules 0-13: tags in parentheses, HTML entities, punctuation, brackets, apostrophes. */
  function MarkupRule(k: nat): (r: Rule)
    requires k < 14
    ensures r.replacement == "" || r.replacement == " " || r.replacement == "'"
  {
    match k
    case 0 => Rule(Alternatives([Literal("(z2", true) + [AnyButLineEnd] + Literal("fm)", true)]), "")
    case 1 => Rule(Alternatives([Literal("(official video)", true), Literal("(official audio)", true)]), "")
    case 2 => Rule(LitIgnoringCase("(320 kbps)"), "")
    case 3 => Rule(Lit("#039;"), "'")
    case 4 => Rule(Lit("&"), " ")
    case 5 => Rule(Lit(";"), "")
    case 6 => Rule(Lit("#"), "")
    case 7 => Rule(Lit("\""), "")
    case 8 => Rule(Run(Exactly('_'), 1), " ")
    case 9 => Rule(Run(Exactly('-'), 2), " ")
    case 10 => Rule(Lit("-"), " ")
    case 11 => Rule(Bracketed, "")
    case 12 => Rule(Alternatives([[Space, Exactly('\'')], [Exactly('\''), Space], [Space, Exactly('\''), Space]]), "")
    case _ => ThirtyNine                                              // 13
  }

  /** Rules 14-27: noise words. */
  function WordRule(k: nat): (r: Rule)
    requires 14 <= k < 28
    ensures r.replacement == "" || r.replacement == " " || r.replacement == "'"
  {
    match k
    case 14 => Rule(LitIgnoringCase("(official music video)"), "")
    case 15 => Rule(LitIgnoringCase("(lyric video)"), "")
    case 16 => Rule(LitIgnoringCase("official"), "")
    case 17 => Rule(LitIgnoringCase("music"), "")
    case 18 => Rule(LitIgnoringCase("video"), "")
    case 19 => Rule(Alternatives([Literal("lyrics", true), Literal("lyric", true)]), "")
    case 20 => Rule(LitIgnoringCase("clip officiel"), "")
    case 21 => Rule(LitIgnoringCase("clip"), "")
    case 22 => Rule(LitIgnoringCase("song premiere"), "")
    case 23 => Rule(LitIgnoringCase("dark techno ebm industrial type"), "")
    case 24 => Rule(LitIgnoringCase("topic"), "")
    case 25 => Rule(LitIgnoringCase("2025"), "")
    case 26 => Rule(LitIgnoringCase("премьера"), "")
    case _ => Rule(LitIgnoringCase("песни"), "")                      // 27
  }

  /** Rules 28-41: parentheses, separators, percent-encoding, punctuation runs, control characters. */
  function SymbolRule(k: nat): (r: Rule)
    requires 28 <= k < 42
    ensures r.replacement == "" || r.replacement == " " || r.replacement == "'"
  {
    match k
    case 28 => Rule(LitIgnoringCase("("), "")
    case 29 => Rule(LitIgnoringCase(")"), "")
    case 30 => Rule(Lit(","), "")
    case 31 => Rule(Lit("/"), " ")
    case 32 => Rule(Lit("%20"), " ")
    case 33 => Rule(Alternatives([[Exactly('%'), HexDigit, HexDigit]]), "")
    case 34 => Rule(Lit("*"), "")
    case 35 => Rule(Lit("?"), " ")
    case 36 => Rule(Lit("\\"), " ")
    case 37 => Rule(Lit("|"), " ")
    case 38 => Rule(Run(Exactly('!'), 1), "")
    case 39 => Rule(Run(Exactly('.'), 2), "")
    case 40 => Rule(Run(Exactly('?'), 2), " ")
    case _ => Rule(Alternatives([[Control]]), " ")                    // 41
  }

  /** The cleaning rules, in declaration order. */
  function Rules(): (rs: seq<Rule>)
    ensures |rs| == RuleCount
    ensures forall k :: 0 <= k < |rs| ==> rs[k] == RuleAt(k)
  {
    seq(RuleCount, k requires 0 <= k < RuleCount => RuleAt(k))
  }

  /** `&#39|#39|39;|39` -> "'": every "39" left in the name becomes an apostrophe. */
  const ThirtyNine: Rule :=
    Rule(Alternatives([Literal("&#39", false), Literal("#39", false),
                       Literal("39;", false), Literal("39", false)]), "'")

  /** `mp3$` -> "" */
  const TrailingMp3: Rule := Rule(SuffixAtEnd("mp3"), "")
  /** `\.mp3$` -> "" */
  const TrailingDotMp3: Rule := Rule(SuffixAtEnd(".mp3"), "")
  /** `\s+` -> " " */
  const SpaceRuns: Rule := Rule(Run(Space, 1), " ")
  /** `\s*'\s*` -> "'" */
  const SpacedApostrophe: Rule := Rule(SpacedAround('\''), "'")
  /** `\s*\.+\s*$` -> "" */
  const TrailingDots: Rule := Rule(DotsAtEnd, "")


  // ---------------------------------------------------------------- sanitize

  /** The name after the rule table. */
  function Cleaned(name: string): string {
    ApplyRules(Rules(), LowerStr(Trim(name)))
  }

  /** After the `mp3$` / `\.mp3$` removals and whitespace collapse with trim. */
  function Collapsed(t: string): string {
    Trim(ReplaceAll(SpaceRuns, ReplaceAll(TrailingDotMp3, ReplaceAll(TrailingMp3, t))))
  }

  /** After the apostrophe and trailing-dots rules. */
  function Finished(t: string): string {
    ReplaceAll(TrailingDots, ReplaceAll(SpacedApostrophe, t))
  }

  /** What sanitize computes for a non-null name. */
  function SanitizedText(name: string): string {
    CapitalizedWords(Finished(Collapsed(Cleaned(name))))
  }

  function Sanitized(fileName: Option<string>): (r: Option<string>)
    ensures r.None? <==> fileName.None?
  {
    if fileName.None? then None else Some(SanitizedText(fileName.value))
  }

  /** The loop of sanitize over the rule table, in declaration order. */
  method ApplyInOrder(rules: seq<Rule>, text: string) returns (result: string)
    ensures result == ApplyRules(rules, text)
  {
    result := text;
    for i := 0 to |rules|
      invariant ApplyRules(rules[i..], result) == ApplyRules(rules, text)
    {
      assert rules[i..][1..] == rules[i + 1..];
      result := ReplaceAll(rules[i], result);
    }
  }

  /** sanitize(fileName) */
  method Sanitize(fileName: Option<string>) returns (r: Option<string>)
    ensures r == Sanitized(fileName)
  {
    if fileName.None? {
      return None;
    }
    var result := ApplyInOrder(Rules(), LowerStr(Trim(fileName.value)));
    result := ReplaceAll(TrailingMp3, result);
    result := ReplaceAll(TrailingDotMp3, result);
    result := Trim(ReplaceAll(SpaceRuns, result));
    result := ReplaceAll(SpacedApostrophe, result);
    result := ReplaceAll(TrailingDots, result);
    result := CapitalizeWords(result);
    return Some(result);
  }

  // ---------------------------------------------------------------- capitalizeWords

  /** No two adjacent spaces. */
  predicate SingleSpaced(s: string) {
    forall i :: 0 <= i < |s| - 1 ==> !(s[i] == ' ' && s[i + 1] == ' ')
  }

  predicate StartsWord(s: string, i: nat) requires i < |s| { i == 0 || s[i - 1] == ' ' }

  /** The first character of every space-separated word is not a lower-case
      letter and no other character is an upper-case letter. */
  predicate WordsCapitalized(s: string) {
    forall i :: 0 <= i < |s| && s[i] != ' ' ==>
      if StartsWord(s, i) then !IsAsciiLower(s[i]) else !IsAsciiUpper(s[i])
  }

  /** Every character is a space or one that trim keeps. */
  predicate NoTrimmableButSpace(s: string) {
    forall k :: 0 <= k < |s| ==> s[k] == ' ' || !IsTrimmable(s[k])
  }

  /** String.split(" ") keeping empty pieces (the ones split drops are empty,
      and capitalizeWords skips empty pieces anyway). */
  function SplitOnSpace(s: string): (ws: seq<string>)
    ensures |ws| >= 1
    decreases |s|
  {
    if s == [] then [""]
    else
      var rest := SplitOnSpace(s[1..]);
      if s[0] == ' ' then [""] + rest else [[s[0]] + rest[0]] + rest[1..]
  }

  /** What the loop appends for one word. */
  function Piece(w: string): string {
    if w == [] then [] else [Upper(w[0])] + LowerStr(w[1..]) + " "
  }

  /** The StringBuilder contents after the given words. */
  function Joined(ws: seq<string>): string {
    if ws == [] then [] else Joined(ws[..|ws| - 1]) + Piece(ws[|ws| - 1])
  }

  function CapitalizedWords(s: string): string {
    if s == [] then s else Trim(Joined(SplitOnSpace(s)))
  }

  /** The StringBuilder loop of capitalizeWords. */
  method AppendWords(words: seq<string>) returns (sb: string)
    ensures sb == Joined(words)
  {
    sb := "";
    for i := 0 to |words|
      invariant sb == Joined(words[..i])
    {
      var word := words[i];
      assert words[..i + 1][..i] == words[..i];
      if word != [] {
        var piece := [Upper(word[0])];
        if |word| > 1 {
          piece := piece + LowerStr(word[1..]);
        } else {
          assert LowerStr(word[1..]) == [];
        }
        piece := piece + " ";
        assert piece == Piece(word);
        sb := sb + piece;
      }
    }
    assert words[..|words|] == words;
  }

  /** capitalizeWords (sanitize never passes null). */
  method CapitalizeWords(input: string) returns (r: string)
    ensures r == CapitalizedWords(input)
  {
    if input == [] {
      return input;
    }
    var words := SplitOnSpace(input);
    var sb := AppendWords(words);
    r := Trim(sb);
  }

  // -------- facts about split

  /** Characters of the words plus one separator each. */
  function TotalLength(ws: seq<string>): nat {
    if ws == [] then 0 else TotalLength(ws[..|ws| - 1]) + |ws[|ws| - 1]| + 1
  }

  lemma {:induction false} TotalLengthCons(w: string, ws: seq<string>)
    ensures TotalLength([w] + ws) == |w| + 1 + TotalLength(ws)
    decreases |ws|
  {
    if ws != [] {
      var init := ws[..|ws| - 1];
      assert ([w] + ws)[..|ws|] == [w] + init;
      TotalLengthCons(w, init);
    }
  }

  /** The pieces and separators account for every character. */
  lemma {:induction false} SplitLength(s: string)
    ensures TotalLength(SplitOnSpace(s)) == |s| + 1
    decreases |s|
  {
    if s != [] {
      var rest := SplitOnSpace(s[1..]);
      SplitLength(s[1..]);
      if s[0] == ' ' {
        TotalLengthCons("", rest);
      } else {
        TotalLengthCons(rest[0], rest[1..]);
        assert rest == [rest[0]] + rest[1..];
        TotalLengthCons([s[0]] + rest[0], rest[1..]);
      }
    }
  }

  /** No piece contains a space. */
  lemma {:induction false} SplitSpaceFree(s: string)
    ensures forall i :: 0 <= i < |SplitOnSpace(s)| ==> ' ' !in SplitOnSpace(s)[i]
    decreases |s|
  {
    if s != [] {
      SplitSpaceFree(s[1..]);
      var rest := SplitOnSpace(s[1..]);
      if s[0] != ' ' {
        assert ' ' !in rest[0];
      }
    }
  }

  /** A character other than space that is absent from s is absent from every piece. */
  lemma {:induction false} SplitKeepsOut(s: string, c: char)
    requires c !in s
    ensures forall i :: 0 <= i < |SplitOnSpace(s)| ==> c !in SplitOnSpace(s)[i]
    decreases |s|
  {
    if s != [] {
      assert c !in s[1..];
      SplitKeepsOut(s[1..], c);
      var rest := SplitOnSpace(s[1..]);
      if s[0] != ' ' {
        assert c !in rest[0];
      }
    }
  }

  /** Pieces of a text whose only trimmable character is the space start with
      a character trim keeps. */
  lemma {:induction false} SplitPiecesStartKept(s: string)
    requires NoTrimmableButSpace(s)
    ensures forall i :: 0 <= i < |SplitOnSpace(s)| && SplitOnSpace(s)[i] != [] ==>
              !IsTrimmable(SplitOnSpace(s)[i][0])
    decreases |s|
  {
    if s != [] {
      assert NoTrimmableButSpace(s[1..]) by {
        forall k | 0 <= k < |s[1..]| ensures s[1..][k] == ' ' || !IsTrimmable(s[1..][k]) {
          assert s[1..][k] == s[k + 1];
        }
      }
      SplitPiecesStartKept(s[1..]);
    }
  }

  // -------- facts about the builder

  lemma PieceShape(w: string)
    requires ' ' !in w
    ensures var p := Piece(w);
      && (w == [] <==> p == [])
      && (p != [] ==> p[|p| - 1] == ' ' && p[0] == Upper(w[0]) && |p| == |w| + 1)
      && (forall k :: 0 <= k < |p| - 1 ==> p[k] != ' ')
      && (forall k :: 0 < k < |p| - 1 ==> p[k] == Lower(w[k]))
  {
    if w != [] {
      var p := Piece(w);
      forall k | 0 < k < |p| - 1 ensures p[k] == Lower(w[k]) {
        assert p[k] == LowerStr(w[1..])[k - 1];
      }
      forall k | 0 <= k < |p| - 1 ensures p[k] != ' ' {
        assert w[k] in w;
      }
    }
  }

  lemma {:induction false} JoinedLength(ws: seq<string>)
    ensures |Joined(ws)| <= TotalLength(ws)
    decreases |ws|
  {
    if ws != [] {
      JoinedLength(ws[..|ws| - 1]);
    }
  }

  /** The builder is empty or ends with a space and starts with a non-space. */
  lemma {:induction false} JoinedEnds(ws: seq<string>)
    requires forall i :: 0 <= i < |ws| ==> ' ' !in ws[i]
    ensures var j := Joined(ws); j == [] || (j[|j| - 1] == ' ' && j[0] != ' ')
    decreases |ws|
  {
    if ws != [] {
      JoinedEnds(ws[..|ws| - 1]);
      PieceShape(ws[|ws| - 1]);
    }
  }

  lemma SingleSpacedConcat(a: string, b: string)
    requires SingleSpaced(a) && SingleSpaced(b)
    requires a == [] || b == [] || a[|a| - 1] != ' ' || b[0] != ' '
    ensures SingleSpaced(a + b)
  {
    var j := a + b;
    forall i | 0 <= i < |j| - 1 ensures !(j[i] == ' ' && j[i + 1] == ' ') {
      if i >= |a| {
        assert j[i] == b[i - |a|] && j[i + 1] == b[i + 1 - |a|];
      } else if i + 1 < |a| {
        assert j[i] == a[i] && j[i + 1] == a[i + 1];
      }
    }
  }

  lemma PieceSingleSpaced(w: string)
    requires ' ' !in w
    ensures SingleSpaced(Piece(w))
    ensures Piece(w) == [] || Piece(w)[0] != ' '
  {
    PieceShape(w);
  }

  lemma {:induction false} JoinedSingleSpaced(ws: seq<string>)
    requires forall i :: 0 <= i < |ws| ==> ' ' !in ws[i]
    ensures SingleSpaced(Joined(ws))
    decreases |ws|
  {
    if ws != [] {
      var init := ws[..|ws| - 1];
      JoinedSingleSpaced(init);
      PieceSingleSpaced(ws[|ws| - 1]);
      SingleSpacedConcat(Joined(init), Piece(ws[|ws| - 1]));
    }
  }

  lemma {:induction false} JoinedCapitalized(ws: seq<string>)
    requires forall i :: 0 <= i < |ws| ==> ' ' !in ws[i]
    ensures WordsCapitalized(Joined(ws))
    decreases |ws|
  {
    if ws != [] {
      var init := ws[..|ws| - 1];
      var a := Joined(init);
      var p := Piece(ws[|ws| - 1]);
      JoinedCapitalized(init);
      JoinedEnds(init);
      PieceShape(ws[|ws| - 1]);
      var j := a + p;
      forall i | 0 <= i < |j| && j[i] != ' '
        ensures if StartsWord(j, i) then !IsAsciiLower(j[i]) else !IsAsciiUpper(j[i])
      {
        if i >= |a| {
          assert j[i] == p[i - |a|];
          if i > |a| { assert j[i - 1] == p[i - |a| - 1]; }
        } else {
          assert StartsWord(j, i) == StartsWord(a, i);
        }
      }
    }
  }

  /** A non-letter other than space absent from every word is absent from the builder. */
  lemma {:induction false} JoinedKeepsOut(ws: seq<string>, c: char)
    requires c != ' ' && !IsAsciiLetter(c)
    requires forall i :: 0 <= i < |ws| ==> c !in ws[i]
    ensures c !in Joined(ws)
    decreases |ws|
  {
    if ws != [] {
      JoinedKeepsOut(ws[..|ws| - 1], c);
      var w := ws[|ws| - 1];
      if w != [] {
        assert c != Upper(w[0]) by { assert w[0] in w; }
        assert c !in LowerStr(w[1..]) by {
          forall k | 0 <= k < |w| - 1 ensures LowerStr(w[1..])[k] != c {
            assert w[1..][k] in w;
          }
        }
      }
    }
  }

  lemma {:induction false} JoinedStartsKept(ws: seq<string>)
    requires forall i :: 0 <= i < |ws| && ws[i] != [] ==> !IsTrimmable(ws[i][0])
    ensures Joined(ws) == [] || !IsTrimmable(Joined(ws)[0])
    decreases |ws|
  {
    if ws != [] {
      JoinedStartsKept(ws[..|ws| - 1]);
    }
  }

  // -------- capitalizeWords properties

  /** capitalizeWords never lengthens its input. */
  lemma CapitalizedNotLonger(s: string)
    ensures |CapitalizedWords(s)| <= |s|
  {
    if s != [] {
      var j := Joined(SplitOnSpace(s));
      JoinedLength(SplitOnSpace(s));
      SplitLength(s);
      SplitSpaceFree(s);
      JoinedEnds(SplitOnSpace(s));
      if j != [] { TrimDropsTrailing(j); }
    }
  }

  /** The result has no leading or trailing blank and no doubled space. */
  lemma CapitalizedSpacing(s: string)
    ensures var r := CapitalizedWords(s);
      && (r == [] || (!IsTrimmable(r[0]) && !IsTrimmable(r[|r| - 1])))
      && SingleSpaced(r)
  {
    if s != [] {
      var j := Joined(SplitOnSpace(s));
      SplitSpaceFree(s);
      JoinedSingleSpaced(SplitOnSpace(s));
      var lo, hi := TrimShape(j);
      var r := Trim(j);
      forall i | 0 <= i < |r| - 1 ensures !(r[i] == ' ' && r[i + 1] == ' ') {
        assert r[i] == j[lo + i] && r[i + 1] == j[lo + i + 1];
      }
    }
  }

  /** Every word of the result is capitalised, provided the input's only
      trimmable character is the space (sanitize guarantees this). */
  lemma CapitalizedWordsAreCapitalized(s: string)
    requires NoTrimmableButSpace(s)
    ensures WordsCapitalized(CapitalizedWords(s))
  {
    if s != [] {
      var ws := SplitOnSpace(s);
      var j := Joined(ws);
      SplitSpaceFree(s);
      SplitPiecesStartKept(s);
      JoinedCapitalized(ws);
      JoinedStartsKept(ws);
      var lo, hi := TrimShape(j);
      var r := Trim(j);
      assert lo == 0;
      forall i | 0 <= i < |r| && r[i] != ' '
        ensures if StartsWord(r, i) then !IsAsciiLower(r[i]) else !IsAsciiUpper(r[i])
      {
        assert r[i] == j[i];
        assert StartsWord(r, i) == StartsWord(j, i);
      }
    }
  }

  /** A non-letter other than space appears in the result only if it appears in the input. */
  lemma CapitalizedKeepsOut(s: string, c: char)
    requires c != ' ' && !IsAsciiLetter(c) && c !in s
    ensures c !in CapitalizedWords(s)
  {
    if s != [] {
      SplitKeepsOut(s, c);
      JoinedKeepsOut(SplitOnSpace(s), c);
      TrimKeepsOut(Joined(SplitOnSpace(s)), c);
    }
  }

  // ---------------------------------------------------------------- sanitize properties

  /** Characters the rule table deletes or turns into spaces. */
  const Specials: string := "&;#\"_-(),/*?\\|!"

  /** Steps after the table bring back only spaces and apostrophes. */
  lemma AfterTableKeepsOut(t: string, c: char)
    requires c != ' ' && c != '\'' && c !in t
    ensures c !in Finished(Collapsed(t))
  {
    var a := ReplaceAll(TrailingMp3, t);
    ReplaceAllKeepsOut(TrailingMp3, c, t);
    var b := ReplaceAll(TrailingDotMp3, a);
    ReplaceAllKeepsOut(TrailingDotMp3, c, a);
    var d := ReplaceAll(SpaceRuns, b);
    ReplaceAllKeepsOut(SpaceRuns, c, b);
    TrimKeepsOut(d, c);
    var e := ReplaceAll(SpacedApostrophe, Trim(d));
    ReplaceAllKeepsOut(SpacedApostrophe, c, Trim(d));
    ReplaceAllKeepsOut(TrailingDots, c, e);
  }

  /** Once rule k erases c, c is absent after the table and the clean-up. */
  lemma TableErases(name: string, k: nat, c: char)
    requires k < RuleCount && Erases(RuleAt(k), c)
    requires c != ' ' && c != '\''
    ensures c !in Finished(Collapsed(Cleaned(name)))
  {
    ApplyRulesErases(Rules(), k, c, LowerStr(Trim(name)));
    AfterTableKeepsOut(Cleaned(name), c);
  }

  /** A character erased by rule k is absent from the sanitized name. */
  lemma SanitizedErases(name: string, k: nat, c: char)
    requires k < RuleCount && c !in RuleAt(k).replacement
    requires TakesChar(RuleAt(k).pattern, c)
    requires c != ' ' && c != '\'' && !IsAsciiLetter(c)
    ensures c !in SanitizedText(name)
  {
    TakesCharErases(RuleAt(k), c);
    TableErases(name, k, c);
    CapitalizedKeepsOut(Finished(Collapsed(Cleaned(name))), c);
  }

  /** The rules among 0-13 that erase & ; # " _ - */
  lemma MarkupSpecialRule(c: char) returns (k: nat)
    requires c in "&;#\"_-"
    ensures k < RuleCount && TakesChar(RuleAt(k).pattern, c) && c !in RuleAt(k).replacement
  {
    if c == '&' { k := 4; }
    else if c == ';' { k := 5; }
    else if c == '#' { k := 6; }
    else if c == '"' { k := 7; }
    else if c == '_' { k := 8; }
    else { k := 10; }
  }

  /** The rules among 28-31 that erase ( ) , / */
  lemma SeparatorRule(c: char) returns (k: nat)
    requires c in "(),/"
    ensures k < RuleCount && TakesChar(RuleAt(k).pattern, c) && c !in RuleAt(k).replacement
  {
    if c == '(' { k := 28; }
    else if c == ')' { k := 29; }
    else if c == ',' { k := 30; }
    else { k := 31; }
  }

  /** The rules among 34-38 that erase * ? \ | ! */
  lemma PunctuationRule(c: char) returns (k: nat)
    requires c in "*?\\|!"
    ensures k < RuleCount && TakesChar(RuleAt(k).pattern, c) && c !in RuleAt(k).replacement
  {
    if c == '*' { k := 34; }
    else if c == '?' { k := 35; }
    else if c == '\\' { k := 36; }
    else if c == '|' { k := 37; }
    else { k := 38; }
  }

  /** The sanitized name contains none of & ; # " _ - ( ) , / * ? \ | ! */
  lemma SanitizedDropsSpecial(name: string, c: char)
    requires c in Specials
    ensures c !in SanitizedText(name)
  {
    var k: nat;
    if c in "&;#\"_-" {
      k := MarkupSpecialRule(c);
    } else if c in "(),/" {
      k := SeparatorRule(c);
    } else {
      k := PunctuationRule(c);
    }
    SanitizedErases(name, k, c);
  }

  /** No control character survives the last rule of the table. */
  lemma FinishedNoControl(name: string)
    ensures forall c :: IsControl(c) ==> c !in Finished(Collapsed(Cleaned(name)))
  {
    forall c | IsControl(c) ensures c !in Finished(Collapsed(Cleaned(name))) {
      TakesCharErases(RuleAt(41), c);
      TableErases(name, 41, c);
    }
  }

  /** The sanitized name holds no control character. */
  lemma SanitizedNoControl(name: string, c: char)
    requires IsControl(c)
    ensures c !in SanitizedText(name)
  {
    FinishedNoControl(name);
    CapitalizedKeepsOut(Finished(Collapsed(Cleaned(name))), c);
  }

  lemma FinishedSpacesOnly(name: string)
    ensures NoTrimmableButSpace(Finished(Collapsed(Cleaned(name))))
  {
    var f := Finished(Collapsed(Cleaned(name)));
    FinishedNoControl(name);
    forall k | 0 <= k < |f| ensures f[k] == ' ' || !IsTrimmable(f[k]) {
      assert f[k] in f;
    }
  }

  /** The sanitized name is trimmed, single-spaced and capitalised word by word. */
  lemma SanitizedShape(name: string)
    ensures var r := SanitizedText(name);
      && (r == [] || (!IsTrimmable(r[0]) && !IsTrimmable(r[|r| - 1])))
      && SingleSpaced(r)
      && WordsCapitalized(r)
  {
    var f := Finished(Collapsed(Cleaned(name)));
    FinishedSpacesOnly(name);
    CapitalizedSpacing(f);
    CapitalizedWordsAreCapitalized(f);
  }

  lemma CleanedNotLonger(name: string)
    ensures |Cleaned(name)| <= |name|
  {
    ApplyRulesShortens(Rules(), LowerStr(Trim(name)));
  }

  lemma AfterTableNotLonger(t: string)
    ensures |Finished(Collapsed(t))| <= |t|
  {
    var a := ReplaceAll(TrailingMp3, t);
    ReplaceAllShortens(TrailingMp3, t);
    var b := ReplaceAll(TrailingDotMp3, a);
    ReplaceAllShortens(TrailingDotMp3, a);
    ReplaceAllShortens(SpaceRuns, b);
    var e := ReplaceAll(SpacedApostrophe, Collapsed(t));
    ReplaceAllShortens(SpacedApostrophe, Collapsed(t));
    ReplaceAllShortens(TrailingDots, e);
  }

  /** The sanitized name is never longer than the input. */
  lemma SanitizedNotLonger(name: string)
    ensures |SanitizedText(name)| <= |name|
  {
    CleanedNotLonger(name);
    AfterTableNotLonger(Cleaned(name));
    CapitalizedNotLonger(Finished(Collapsed(Cleaned(name))));
  }

  /** A blank (trim-empty) name sanitizes to the empty string. */
  lemma SanitizedBlank(name: string)
    requires TrimsToEmpty(name)
    ensures SanitizedText(name) == ""
  {
    TrimEmpty(name);
    ApplyRulesEmpty(Rules());
  }

  // -------- the "39" rule

  /** No '3' immediately followed by '9'. */
  predicate NoThirtyNine(s: string) {
    forall i :: 0 <= i < |s| - 1 ==> !(s[i] == '3' && s[i + 1] == '9')
  }

  lemma ThirtyNineMatches(s: string)
    requires |s| >= 2 && s[0] == '3' && s[1] == '9'
    ensures MatchLength(ThirtyNine.pattern, s) > 0
  {
    assert AltMatches(Literal("39", false), s);
    FirstAlternativeFinds(ThirtyNine.pattern.alts, 3, s);
  }

  /** The text rewritten by a one-character rule starts with the replacement
      when the rule matches at the start, and with the first character otherwise. */
  lemma ReplaceAllHead(r: Rule, s: string)
    requires s != [] && |r.replacement| == 1
    ensures ReplaceAll(r, s) != []
    ensures ReplaceAll(r, s)[0] == if MatchLength(r.pattern, s) > 0 then r.replacement[0] else s[0]
  {
  }

  lemma ThirtyNineStep(s: string)
    requires s != [] && MatchLength(ThirtyNine.pattern, s) == 0
    requires NoThirtyNine(ReplaceAll(ThirtyNine, s[1..]))
    ensures NoThirtyNine(ReplaceAll(ThirtyNine, s))
  {
    var rest := ReplaceAll(ThirtyNine, s[1..]);
    var out := [s[0]] + rest;
    if s[0] == '3' && rest != [] {
      ReplaceAllHead(ThirtyNine, s[1..]);
      if |s| >= 2 && s[1] == '9' {
        ThirtyNineMatches(s);
      }
    }
    forall i | 0 <= i < |out| - 1 ensures !(out[i] == '3' && out[i + 1] == '9') {
      if i >= 1 {
        assert out[i] == rest[i - 1] && out[i + 1] == rest[i];
      }
    }
  }

  /** The apostrophe rule leaves no "39" behind: every occurrence becomes an
      apostrophe, whatever surrounds it (so "Track 39" loses its number). */
  lemma {:induction false} ThirtyNineGone(s: string)
    ensures NoThirtyNine(ReplaceAll(ThirtyNine, s))
    decreases |s|
  {
    if s != [] {
      var n := MatchLength(ThirtyNine.pattern, s);
      if n > 0 {
        ThirtyNineGone(s[n..]);
        var rest := ReplaceAll(ThirtyNine, s[n..]);
        var out := "'" + rest;
        forall i | 0 <= i < |out| - 1 ensures !(out[i] == '3' && out[i + 1] == '9') {
          if i >= 1 {
            assert out[i] == rest[i - 1] && out[i + 1] == rest[i];
          }
        }
      } else {
        ThirtyNineGone(s[1..]);
        ThirtyNineStep(s);
      }
    }
  }

  /** After rule 13 the text does not contain "39". */
  lemma NoThirtyNineAfterApostropheRule(s: string)
    ensures RuleAt(13) == ThirtyNine
    ensures !Contains(ReplaceAll(ThirtyNine, s), "39")
  {
    var out := ReplaceAll(ThirtyNine, s);
    ThirtyNineGone(s);
    forall i | 0 <= i <= |out| - 2 ensures !OccursAt(out, "39", i) {
      assert out[i..i + 2][0] == out[i] && out[i..i + 2][1] == out[i + 1];
    }
  }

  // ---------------------------------------------------------------- composeFileName

  /** composeFileName(channel, title). */
  function ComposeFileName(channel: Option<string>, title: Option<string>): (r: Option<string>)
    ensures title.None? ==> r == channel
    ensures title.Some? ==> r.Some? && EndsWith(r.value, title.value)
    ensures title.Some? && channel.Some? && !IsBlank(channel.value) ==>
              Contains(LowerStr(r.value), LowerStr(channel.value))
    ensures title.Some? ==>
              (r == title <==> channel.None? || IsBlank(channel.value)
                               || Contains(LowerStr(title.value), LowerStr(channel.value)))
    ensures title.Some? && channel.Some? && !IsBlank(channel.value)
            && !Contains(LowerStr(title.value), LowerStr(channel.value)) ==>
              r == Some(channel.value + " - " + title.value)
  {
    if title.None? then channel
    else if channel.None? || IsBlank(channel.value) then title
    else if Contains(LowerStr(title.value), LowerStr(channel.value)) then title
    else
      var r := channel.value + " - " + title.value;
      assert OccursAt(LowerStr(r), LowerStr(channel.value), 0) by {
        assert LowerStr(r)[..|channel.value|] == LowerStr(channel.value);
      }
      assert r[|r| - |title.value|..] == title.value;
      Some(r)
  }

  // ---------------------------------------------------------------- sanitizeAllInDirectory

  datatype FileEntry = FileEntry(name: string, isFile: bool)

  /** What `new File(dirPath)` turns out to be. */
  datatype Directory =
    | NotADirectory
    | Unlistable                      // listFiles() returned null
    | Listing(entries: seq<FileEntry>)

  /** The four counters of the bulk rename and the renames it performed, as
      (old name, new name) pairs in listing order. */
  datatype Tally = Tally(total: nat, affected: nat, changed: nat, alreadyClean: nat,
                         renames: seq<(string, string)>)

  /** The name a file gets: the part before the last '.' (when that '.' is not
      the first character) goes through `sanitize`, the extension is kept.
      The loop below is stated for any `sanitize`; the bulk rename uses
      SanitizedText. */
  function NewName(sanitize: string -> string, name: string): string {
    var dot := LastIndexOf(name, '.');
    if dot > 0 then sanitize(name[..dot]) + name[dot..] else sanitize(name)
  }

  /** A regular file whose lower-cased name ends with the extension (all
      regular files when the extension is null). */
  predicate Selected(e: FileEntry, extension: Option<string>) {
    e.isFile && (extension.None? || EndsWith(LowerStr(e.name), extension.value))
  }

  /** One pass of the loop over the listing; `fails` holds the names whose
      File.renameTo returns false. */
  function Visit(sanitize: string -> string, t: Tally, file: FileEntry, extension: Option<string>, dryRun: bool, fails: set<string>): Tally {
    if !Selected(file, extension) then t
    else if NewName(sanitize, file.name) == file.name then t.(total := t.total + 1, alreadyClean := t.alreadyClean + 1)
    else if dryRun || file.name in fails then t.(total := t.total + 1, affected := t.affected + 1)
    else t.(total := t.total + 1, affected := t.affected + 1, changed := t.changed + 1,
            renames := t.renames + [(file.name, NewName(sanitize, file.name))])
  }

  /** The counters after the loop has visited the given files. */
  function TallyOf(sanitize: string -> string, files: seq<FileEntry>, extension: Option<string>, dryRun: bool, fails: set<string>): Tally {
    if files == [] then Tally(0, 0, 0, 0, [])
    else Visit(sanitize, TallyOf(sanitize, files[..|files| - 1], extension, dryRun, fails), files[|files| - 1], extension, dryRun, fails)
  }

  // -------- reference definitions

  /** Names of the selected entries, in listing order. */
  function SelectedNames(es: seq<FileEntry>, extension: Option<string>): seq<string> {
    if es == [] then []
    else SelectedNames(es[..|es| - 1], extension)
         + (if Selected(es[|es| - 1], extension) then [es[|es| - 1].name] else [])
  }

  /** The names that sanitizing would change. */
  function NeedingRename(sanitize: string -> string, names: seq<string>): seq<string> {
    if names == [] then []
    else NeedingRename(sanitize, names[..|names| - 1])
         + (var n := names[|names| - 1]; if NewName(sanitize, n) != n then [n] else [])
  }

  /** The renames that succeed, as (old, new) pairs. */
  function Performed(sanitize: string -> string, names: seq<string>, fails: set<string>): seq<(string, string)> {
    if names == [] then []
    else Performed(sanitize, names[..|names| - 1], fails)
         + (var n := names[|names| - 1]; if n !in fails then [(n, NewName(sanitize, n))] else [])
  }

  lemma {:induction false} PerformedShape(sanitize: string -> string, names: seq<string>, fails: set<string>)
    ensures |Performed(sanitize, names, fails)| <= |names|
    ensures forall i :: 0 <= i < |Performed(sanitize, names, fails)| ==>
              var (o, n) := Performed(sanitize, names, fails)[i]; o in names && o !in fails && n == NewName(sanitize, o)
    decreases |names|
  {
    if names != [] {
      var init, last := names[..|names| - 1], names[|names| - 1];
      PerformedShape(sanitize, init, fails);
      var prev := Performed(sanitize, init, fails);
      var step := if last !in fails then [(last, NewName(sanitize, last))] else [];
      assert Performed(sanitize, names, fails) == prev + step;
      forall i | 0 <= i < |prev + step|
        ensures var (o, n) := (prev + step)[i]; o in names && o !in fails && n == NewName(sanitize, o)
      {
        if i < |prev| {
          assert (prev + step)[i] == prev[i];
          assert prev[i].0 in init;
        } else {
          assert (prev + step)[i] == (last, NewName(sanitize, last));
        }
      }
    }
  }

  lemma NeedingRenameSnoc(sanitize: string -> string, names: seq<string>, n: string)
    ensures NeedingRename(sanitize, names + [n]) == NeedingRename(sanitize, names) + (if NewName(sanitize, n) != n then [n] else [])
  {
    assert (names + [n])[..|names|] == names;
  }

  lemma PerformedSnoc(sanitize: string -> string, names: seq<string>, n: string, fails: set<string>)
    ensures Performed(sanitize, names + [n], fails) == Performed(sanitize, names, fails) + (if n !in fails then [(n, NewName(sanitize, n))] else [])
  {
    assert (names + [n])[..|names|] == names;
  }

  /** What the counters mean: every selected file is counted once, as
      affected or already clean. */
  lemma {:induction false} TallyCounts(sanitize: string -> string, files: seq<FileEntry>, extension: Option<string>, dryRun: bool, fails: set<string>)
    ensures var t := TallyOf(sanitize, files, extension, dryRun, fails);
      && t.total == |SelectedNames(files, extension)|
      && t.affected == |NeedingRename(sanitize, SelectedNames(files, extension))|
      && t.total == t.affected + t.alreadyClean
    decreases |files|
  {
    if files != [] {
      var init := files[..|files| - 1];
      var f := files[|files| - 1];
      TallyCounts(sanitize, init, extension, dryRun, fails);
      var t0 := TallyOf(sanitize, init, extension, dryRun, fails);
      var sel := SelectedNames(init, extension);
      if Selected(f, extension) {
        assert SelectedNames(files, extension) == sel + [f.name];
        NeedingRenameSnoc(sanitize, sel, f.name);
      } else {
        assert SelectedNames(files, extension) == sel;
        assert TallyOf(sanitize, files, extension, dryRun, fails) == t0;
      }
    }
  }

  /** The renames are the successful ones among the names needing a rename,
      none on a dry run; `changed` counts them. */
  lemma {:induction false} TallyRenames(sanitize: string -> string, files: seq<FileEntry>, extension: Option<string>, dryRun: bool, fails: set<string>)
    ensures var t := TallyOf(sanitize, files, extension, dryRun, fails);
      && t.renames == (if dryRun then [] else Performed(sanitize, NeedingRename(sanitize, SelectedNames(files, extension)), fails))
      && t.changed == |t.renames|
    decreases |files|
  {
    if files != [] {
      var init := files[..|files| - 1];
      var f := files[|files| - 1];
      TallyRenames(sanitize, init, extension, dryRun, fails);
      var t0 := TallyOf(sanitize, init, extension, dryRun, fails);
      var sel := SelectedNames(init, extension);
      if Selected(f, extension) {
        assert SelectedNames(files, extension) == sel + [f.name];
        NeedingRenameSnoc(sanitize, sel, f.name);
        var dirty := NeedingRename(sanitize, sel);
        PerformedSnoc(sanitize, dirty, f.name, fails);
        var t := TallyOf(sanitize, files, extension, dryRun, fails);
        if NewName(sanitize, f.name) == f.name {
          assert NeedingRename(sanitize, sel + [f.name]) == dirty;
          assert t.renames == t0.renames && t.changed == t0.changed;
        } else if dryRun || f.name in fails {
          assert t.renames == t0.renames && t.changed == t0.changed;
        } else {
          assert t.renames == t0.renames + [(f.name, NewName(sanitize, f.name))];
        }
      } else {
        assert SelectedNames(files, extension) == sel;
        assert TallyOf(sanitize, files, extension, dryRun, fails) == t0;
      }
    }
  }

  /** One iteration of the loop of sanitizeAllInDirectory. */
  method VisitFile(sanitize: string -> string, t: Tally, file: FileEntry, extension: Option<string>, dryRun: bool, fails: set<string>)
    returns (next: Tally)
    ensures next == Visit(sanitize, t, file, extension, dryRun, fails)
  {
    next := t;
    if file.isFile && (extension.None? || EndsWith(LowerStr(file.name), extension.value)) {
      next := next.(total := next.total + 1);
      var newName := NewName(sanitize, file.name);
      if newName != file.name {
        next := next.(affected := next.affected + 1);
        if !dryRun {
          var ok := file.name !in fails;
          if ok {
            next := next.(changed := next.changed + 1, renames := next.renames + [(file.name, newName)]);
          }
        }
      } else {
        next := next.(alreadyClean := next.alreadyClean + 1);
      }
    }
  }

  /** The loop of sanitizeAllInDirectory over the listing. */
  method TallyFiles(sanitize: string -> string, files: seq<FileEntry>, extension: Option<string>, dryRun: bool, fails: set<string>)
    returns (t: Tally)
    ensures t == TallyOf(sanitize, files, extension, dryRun, fails)
  {
    t := Tally(0, 0, 0, 0, []);
    for i := 0 to |files|
      invariant t == TallyOf(sanitize, files[..i], extension, dryRun, fails)
    {
      assert files[..i + 1][..i] == files[..i];
      t := VisitFile(sanitize, t, files[i], extension, dryRun, fails);
    }
    assert files[..|files|] == files;
  }

  /** sanitizeAllInDirectory(dirPath, extension, dryRun): the counters and the
      renames (console output is not modelled); None when the path is not a
      listable directory. */
  method SanitizeAllInDirectory(dir: Directory, extension: Option<string>, dryRun: bool, fails: set<string>)
    returns (report: Option<Tally>)
    ensures report.Some? <==> dir.Listing?
    ensures dir.Listing? ==>
      var t := report.value;
      var selected := SelectedNames(dir.entries, extension);
      var dirty := NeedingRename(SanitizedText, selected);
      && t.total == |selected|
      && t.affected == |dirty|
      && t.total == t.affected + t.alreadyClean
      && t.renames == (if dryRun then [] else Performed(SanitizedText, dirty, fails))
      && t.changed == |t.renames| <= t.affected
  {
    if !dir.Listing? {
      return None;
    }
    var t := TallyFiles(SanitizedText, dir.entries, extension, dryRun, fails);
    TallyCounts(SanitizedText, dir.entries, extension, dryRun, fails);
    TallyRenames(SanitizedText, dir.entries, extension, dryRun, fails);
    PerformedShape(SanitizedText, NeedingRename(SanitizedText, SelectedNames(dir.entries, extension)), fails);
    report := Some(t);
  }
}
