/** The fragment of java.util.regex that the file-name sanitizer uses, with
    String.replaceAll's scanning discipline: try a match at the leftmost
    position, substitute it and resume after it, otherwise keep one character
    and move on. Every pattern of the sanitizer's table is one of the shapes
    below; each shape's matcher reproduces the backtracking outcome of the
    corresponding Java pattern at a fixed start position. */
module Regex {
  import opened Text

  /** Characters `.` refuses by default: \n, \r, U+0085, U+2028, U+2029. */
  predicate IsLineTerminator(c: char) {
    c == '\n' || c == '\r' || c == '\U{85}' || c == '\U{2028}' || c == '\U{2029}'
  }

  /** `\s` without UNICODE_CHARACTER_CLASS: [ \t\n\x0B\f\r]. */
  predicate IsRegexSpace(c: char) { c == ' ' || ('\t' <= c <= '\r') }

  /** `\p{Cntrl}`: U+0000..U+001F and U+007F. */
  predicate IsControl(c: char) { c < ' ' || c == '\U{7F}' }

  predicate IsHexDigit(c: char) { IsDigit(c) || ('a' <= c <= 'f') || ('A' <= c <= 'F') }

  datatype CharClass =
    | Exactly(c: char)          // a literal character
    | IgnoringCase(c: char)     // a literal under CASE_INSENSITIVE (ASCII folding)
    | AnyButLineEnd             // `.`
    | Space                     // `\s`
    | HexDigit                  // `[0-9A-Fa-f]`
    | Control                   // `\p{Cntrl}`

  predicate ClassMatches(k: CharClass, x: char) {
    match k
    case Exactly(c) => x == c
    case IgnoringCase(c) => SameIgnoringCase(x, c)
    case AnyButLineEnd => !IsLineTerminator(x)
    case Space => IsRegexSpace(x)
    case HexDigit => IsHexDigit(x)
    case Control => IsControl(x)
  }

  datatype Pattern =
    /** Fixed-length alternatives, tried in order: `a|b|c`. */
    | Alternatives(alts: seq<seq<CharClass>>)
    /** A greedy run of at least `min` characters of one class: `c{min,}`, `c+`. */
    | Run(cls: CharClass, min: nat)
    /** `[\[].+[\]]`: an opening bracket, then the last closing bracket reachable
        without crossing a line terminator, with at least one character between. */
    | Bracketed
    /** `\s*c\s*` */
    | SpacedAround(c: char)
    /** A literal anchored at the end of input: `lit$`. */
    | SuffixAtEnd(lit: string)
    /** `\s*\.+\s*$` */
    | DotsAtEnd

  datatype Rule = Rule(pattern: Pattern, replacement: string)

  /** A literal string as a sequence of character classes. */
  function Literal(s: string, ignoreCase: bool): (r: seq<CharClass>)
    ensures |r| == |s|
  {
    seq(|s|, i requires 0 <= i < |s| => if ignoreCase then IgnoringCase(s[i]) else Exactly(s[i]))
  }

  predicate AltMatches(alt: seq<CharClass>, s: string) {
    |alt| <= |s| && forall k :: 0 <= k < |alt| ==> ClassMatches(alt[k], s[k])
  }

  /** Length of the first alternative matching at the start of s (0: none). */
  function FirstAlternative(alts: seq<seq<CharClass>>, s: string): (n: nat)
    ensures n <= |s|
  {
    if alts == [] then 0
    else if AltMatches(alts[0], s) then |alts[0]|
    else FirstAlternative(alts[1..], s)
  }

  /** Number of leading characters of s in class k. */
  function RunLength(k: CharClass, s: string): (n: nat)
    ensures n <= |s|
    ensures forall i :: 0 <= i < n ==> ClassMatches(k, s[i])
    ensures n < |s| ==> !ClassMatches(k, s[n])
  {
    if s != [] && ClassMatches(k, s[0]) then 1 + RunLength(k, s[1..]) else 0
  }

  /** First index at or after i holding a line terminator, or |s|. */
  function LineEnd(s: string, i: nat): (e: nat)
    requires i <= |s|
    ensures i <= e <= |s|
    ensures forall k :: i <= k < e ==> !IsLineTerminator(s[k])
    ensures e < |s| ==> IsLineTerminator(s[e])
    decreases |s| - i
  {
    if i == |s| || IsLineTerminator(s[i]) then i else LineEnd(s, i + 1)
  }

  /** Largest j with lo <= j < hi and s[j] == c. */
  function LastIndexBelow(s: string, c: char, lo: nat, hi: nat): (r: Option<nat>)
    requires hi <= |s|
    ensures r.Some? ==> lo <= r.value < hi && s[r.value] == c
    ensures r.Some? ==> forall k :: r.value < k < hi ==> s[k] != c
    ensures r.None? ==> forall k :: lo <= k < hi ==> s[k] != c
    decreases hi
  {
    if hi <= lo then None
    else if s[hi - 1] == c then Some(hi - 1)
    else LastIndexBelow(s, c, lo, hi - 1)
  }

  /** `\s*\.+\s*` covers all of s. */
  predicate IsDotTail(s: string) {
    var a := RunLength(Space, s);
    var b := RunLength(Exactly('.'), s[a..]);
    b > 0 && forall k :: a + b <= k < |s| ==> IsRegexSpace(s[k])
  }

  /** Length of the match of p at the start of s; 0 when there is none (no
      pattern of the table can match the empty string). */
  function MatchLength(p: Pattern, s: string): (n: nat)
    ensures n <= |s|
  {
    match p
    case Alternatives(alts) => FirstAlternative(alts, s)
    case Run(k, min) =>
      var n := RunLength(k, s);
      if n >= min && n > 0 then n else 0
    case Bracketed =>
      if |s| < 3 || s[0] != '[' then 0
      else
        var e := LineEnd(s, 1);
        var j := LastIndexBelow(s, ']', 2, e);
        if j.Some? then j.value + 1 else 0
    case SpacedAround(c) =>
      var a := RunLength(Space, s);
      if a < |s| && s[a] == c then a + 1 + RunLength(Space, s[a + 1..]) else 0
    case SuffixAtEnd(lit) =>
      if s == lit then |s| else 0
    case DotsAtEnd =>
      if IsDotTail(s) then |s| else 0
  }

  /** String.replaceAll(pattern, replacement) for one rule. */
  function ReplaceAll(r: Rule, s: string): (out: string)
    decreases |s|
  {
    if s == [] then []
    else
      var n := MatchLength(r.pattern, s);
      if n > 0 then r.replacement + ReplaceAll(r, s[n..])
      else [s[0]] + ReplaceAll(r, s[1..])
  }

  /** Rules applied one after the other, in order. */
  function ApplyRules(rs: seq<Rule>, s: string): string
    decreases |rs|
  {
    if rs == [] then s else ApplyRules(rs[1..], ReplaceAll(rs[0], s))
  }

  // ---------------------------------------------------------------- properties

  /** When alternative k matches and every alternative is non-empty, the
      alternation matches. */
  lemma {:induction false} FirstAlternativeFinds(alts: seq<seq<CharClass>>, k: nat, s: string)
    requires k < |alts| && AltMatches(alts[k], s)
    requires forall j :: 0 <= j < |alts| ==> alts[j] != []
    ensures FirstAlternative(alts, s) > 0
    decreases k
  {
    if k > 0 && !AltMatches(alts[0], s) {
      FirstAlternativeFinds(alts[1..], k - 1, s);
    }
  }

  /** Rule r erases every occurrence of c: any text starting with c matches,
      and the replacement does not put c back. */
  ghost predicate Erases(r: Rule, c: char) {
    c !in r.replacement
    && forall t: string :: t != [] && t[0] == c ==> MatchLength(r.pattern, t) > 0
  }

  /** p is a one-character alternative first, or a run of at least one
      character, whose class admits c: it matches any text starting with c. */
  predicate TakesChar(p: Pattern, c: char) {
    match p
    case Alternatives(alts) => |alts| > 0 && |alts[0]| == 1 && ClassMatches(alts[0][0], c)
    case Run(k, min) => min <= 1 && ClassMatches(k, c)
    case _ => false
  }

  lemma TakesCharErases(r: Rule, c: char)
    requires c !in r.replacement && TakesChar(r.pattern, c)
    ensures Erases(r, c)
  {
    forall t: string | t != [] && t[0] == c ensures MatchLength(r.pattern, t) > 0 {
      if r.pattern.Alternatives? {
        assert AltMatches(r.pattern.alts[0], t);
      }
    }
  }

  lemma {:induction false} ReplaceAllErases(r: Rule, c: char, s: string)
    requires Erases(r, c)
    ensures c !in ReplaceAll(r, s)
    decreases |s|
  {
    if s != [] {
      var n := MatchLength(r.pattern, s);
      if n > 0 {
        ReplaceAllErases(r, c, s[n..]);
      } else {
        ReplaceAllErases(r, c, s[1..]);
      }
    }
  }

  /** A character absent from the text and from the replacement stays absent. */
  lemma {:induction false} ReplaceAllKeepsOut(r: Rule, c: char, s: string)
    requires c !in s && c !in r.replacement
    ensures c !in ReplaceAll(r, s)
    decreases |s|
  {
    if s != [] {
      var n := MatchLength(r.pattern, s);
      if n > 0 {
        assert c !in s[n..];
        ReplaceAllKeepsOut(r, c, s[n..]);
      } else {
        assert c !in s[1..];
        ReplaceAllKeepsOut(r, c, s[1..]);
      }
    }
  }

  /** A replacement of at most one character never lengthens the text. */
  lemma {:induction false} ReplaceAllShortens(r: Rule, s: string)
    requires |r.replacement| <= 1
    ensures |ReplaceAll(r, s)| <= |s|
    decreases |s|
  {
    if s != [] {
      var n := MatchLength(r.pattern, s);
      if n > 0 { ReplaceAllShortens(r, s[n..]); } else { ReplaceAllShortens(r, s[1..]); }
    }
  }

  /** Applying a list of rules is applying its two halves in turn. */
  lemma {:induction false} ApplyRulesSplit(rs: seq<Rule>, k: nat, s: string)
    requires k <= |rs|
    ensures ApplyRules(rs, s) == ApplyRules(rs[k..], ApplyRules(rs[..k], s))
    decreases k
  {
    if k > 0 {
      ApplyRulesSplit(rs[1..], k - 1, ReplaceAll(rs[0], s));
      assert rs[1..][k - 1..] == rs[k..];
      assert rs[1..][..k - 1] == rs[..k][1..];
    }
  }

  /** A character absent from the text and from every replacement stays absent. */
  lemma {:induction false} ApplyRulesKeepsOut(rs: seq<Rule>, c: char, s: string)
    requires c !in s
    requires forall i :: 0 <= i < |rs| ==> c !in rs[i].replacement
    ensures c !in ApplyRules(rs, s)
    decreases |rs|
  {
    if rs != [] {
      ReplaceAllKeepsOut(rs[0], c, s);
      ApplyRulesKeepsOut(rs[1..], c, ReplaceAll(rs[0], s));
    }
  }

  /** Once rule k of a table erases c and no later rule reintroduces it, c is
      absent from the output of the whole table. */
  lemma ApplyRulesErases(rs: seq<Rule>, k: nat, c: char, s: string)
    requires k < |rs| && Erases(rs[k], c)
    requires forall i :: k < i < |rs| ==> c !in rs[i].replacement
    ensures c !in ApplyRules(rs, s)
  {
    ApplyRulesSplit(rs, k, s);
    var mid := ApplyRules(rs[..k], s);
    assert ApplyRules(rs[k..], mid) == ApplyRules(rs[k + 1..], ReplaceAll(rs[k], mid)) by {
      assert rs[k..][1..] == rs[k + 1..];
    }
    ReplaceAllErases(rs[k], c, mid);
    ApplyRulesKeepsOut(rs[k + 1..], c, ReplaceAll(rs[k], mid));
  }

  /** A table whose replacements are at most one character never lengthens. */
  lemma {:induction false} ApplyRulesShortens(rs: seq<Rule>, s: string)
    requires forall i :: 0 <= i < |rs| ==> |rs[i].replacement| <= 1
    ensures |ApplyRules(rs, s)| <= |s|
    decreases |rs|
  {
    if rs != [] {
      ReplaceAllShortens(rs[0], s);
      ApplyRulesShortens(rs[1..], ReplaceAll(rs[0], s));
    }
  }

  /** The empty text is a fixed point of every table. */
  lemma {:induction false} ApplyRulesEmpty(rs: seq<Rule>)
    ensures ApplyRules(rs, "") == ""
    decreases |rs|
  {
    if rs != [] { ApplyRulesEmpty(rs[1..]); }
  }
}
