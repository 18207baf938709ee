/** String and number helpers shared by the bots: the pieces of java.lang.String,
    Long and Integer that the modelled code relies on, restricted to what the
    callers use. Case mapping is ASCII-only (see README). */
module Text {

  /** Java's nullable reference, as a value. */
  datatype Option<T> = None | Some(value: T)

  /** An operation that either returns a value or throws. */
  datatype Result<T> = Ok(value: T) | Thrown(error: Exception)

  /** The three exception families the callers distinguish in their catch blocks. */
  datatype Exception =
    | IOError(name: string, message: string)
    | InterruptedError(message: string)
    | OtherError(name: string, message: string)
  {
    /** Class.getSimpleName() of the exception. */
    function SimpleName(): string {
      match this
      case IOError(n, _) => n
      case InterruptedError(_) => "InterruptedException"
      case OtherError(n, _) => n
    }
    function Message(): string {
      match this
      case IOError(_, m) => m
      case InterruptedError(m) => m
      case OtherError(_, m) => m
    }
  }

  // ---------------------------------------------------------------- case

  predicate IsAsciiUpper(c: char) { 'A' <= c <= 'Z' }
  predicate IsAsciiLower(c: char) { 'a' <= c <= 'z' }
  predicate IsAsciiLetter(c: char) { IsAsciiUpper(c) || IsAsciiLower(c) }

  function Lower(c: char): (r: char)
    ensures !IsAsciiUpper(r)
    ensures !IsAsciiLetter(c) ==> r == c
  {
    if IsAsciiUpper(c) then (c as int + 32) as char else c
  }

  function Upper(c: char): (r: char)
    ensures !IsAsciiLower(r)
    ensures !IsAsciiLetter(c) ==> r == c
  {
    if IsAsciiLower(c) then (c as int - 32) as char else c
  }

  /** String.toLowerCase restricted to ASCII letters. */
  function LowerStr(s: string): (r: string)
    ensures |r| == |s|
    ensures forall i :: 0 <= i < |s| ==> r[i] == Lower(s[i])
  {
    seq(|s|, i requires 0 <= i < |s| => Lower(s[i]))
  }

  /** Character-wise comparison that ignores ASCII case (regex CASE_INSENSITIVE,
      String.equalsIgnoreCase on ASCII text). */
  predicate SameIgnoringCase(a: char, b: char) { Lower(a) == Lower(b) }

  predicate EqualsIgnoreCase(a: string, b: string) {
    |a| == |b| && forall i :: 0 <= i < |a| ==> SameIgnoringCase(a[i], b[i])
  }

  // ---------------------------------------------------------------- trim, blank

  /** Characters that String.trim() strips: every code point up to U+0020. */
  predicate IsTrimmable(c: char) { c <= ' ' }

  /** First index at or after i whose character trim keeps, or |s|. */
  function KeptFrom(s: string, i: nat): (k: nat)
    requires i <= |s|
    ensures i <= k <= |s|
    decreases |s| - i
  {
    if i == |s| || !IsTrimmable(s[i]) then i else KeptFrom(s, i + 1)
  }

  /** Smallest e >= lo such that s[e..j] is all trimmable. */
  function KeptUntil(s: string, lo: nat, j: nat): (e: nat)
    requires lo <= j <= |s|
    ensures lo <= e <= j
    decreases j
  {
    if j == lo || !IsTrimmable(s[j - 1]) then j else KeptUntil(s, lo, j - 1)
  }

  /** String.trim(): drops leading and trailing characters <= U+0020. */
  function Trim(s: string): (r: string)
    ensures |r| <= |s|
  {
    var i := KeptFrom(s, 0);
    s[i..KeptUntil(s, i, |s|)]
  }

  /** s.trim().isEmpty() */
  predicate TrimsToEmpty(s: string) { forall k :: 0 <= k < |s| ==> IsTrimmable(s[k]) }

  lemma {:induction false} KeptFromSpec(s: string, i: nat)
    requires i <= |s|
    ensures forall k :: i <= k < KeptFrom(s, i) ==> IsTrimmable(s[k])
    ensures KeptFrom(s, i) < |s| ==> !IsTrimmable(s[KeptFrom(s, i)])
    decreases |s| - i
  {
    if i < |s| && IsTrimmable(s[i]) { KeptFromSpec(s, i + 1); }
  }

  lemma {:induction false} KeptUntilSpec(s: string, lo: nat, j: nat)
    requires lo <= j <= |s|
    ensures forall k :: KeptUntil(s, lo, j) <= k < j ==> IsTrimmable(s[k])
    ensures KeptUntil(s, lo, j) > lo ==> !IsTrimmable(s[KeptUntil(s, lo, j) - 1])
    decreases j
  {
    if j > lo && IsTrimmable(s[j - 1]) { KeptUntilSpec(s, lo, j - 1); }
  }

  /** Trim(s) is the slice s[i..j] where everything before i and from j on is
      trimmable, and it neither starts nor ends with a trimmable character. */
  lemma TrimShape(s: string) returns (i: nat, j: nat)
    ensures i <= j <= |s| && Trim(s) == s[i..j]
    ensures forall k :: 0 <= k < i ==> IsTrimmable(s[k])
    ensures forall k :: j <= k < |s| ==> IsTrimmable(s[k])
    ensures i < j ==> !IsTrimmable(s[i]) && !IsTrimmable(s[j - 1])
  {
    i := KeptFrom(s, 0);
    j := KeptUntil(s, i, |s|);
    KeptFromSpec(s, 0);
    KeptUntilSpec(s, i, |s|);
  }

  /** trim() gives the empty string exactly for trim-empty input. */
  lemma TrimEmpty(s: string)
    ensures Trim(s) == [] <==> TrimsToEmpty(s)
  {
    var i, j := TrimShape(s);
  }

  /** Trimming a string whose last character is trimmable shortens it. */
  lemma TrimDropsTrailing(s: string)
    requires s != [] && IsTrimmable(s[|s| - 1])
    ensures |Trim(s)| < |s|
  {
    var i, j := TrimShape(s);
  }

  /** A character absent from s is absent from its trim. */
  lemma TrimKeepsOut(s: string, c: char)
    requires c !in s
    ensures c !in Trim(s)
  {
    var i, j := TrimShape(s);
    assert forall k :: 0 <= k < j - i ==> Trim(s)[k] == s[i + k];
  }

  /** Character.isWhitespace. */
  predicate IsJavaWhitespace(c: char) {
    c == ' ' || ('\t' <= c <= '\r') || ('\U{1C}' <= c <= '\U{1F}')
    || c == '\U{1680}' || ('\U{2000}' <= c <= '\U{2006}') || ('\U{2008}' <= c <= '\U{200A}')
    || c == '\U{2028}' || c == '\U{2029}' || c == '\U{205F}' || c == '\U{3000}'
  }

  /** String.isBlank(): empty or whitespace only. */
  predicate IsBlank(s: string) { forall k :: 0 <= k < |s| ==> IsJavaWhitespace(s[k]) }

  // ---------------------------------------------------------------- search

  predicate OccursAt(s: string, p: string, i: int) {
    0 <= i && i + |p| <= |s| && s[i..i + |p|] == p
  }

  predicate OccursAtIgnoringCase(s: string, p: string, i: int) {
    0 <= i && i + |p| <= |s| && EqualsIgnoreCase(s[i..i + |p|], p)
  }

  predicate StartsWith(s: string, p: string) { |p| <= |s| && s[..|p|] == p }

  predicate EndsWith(s: string, p: string) { |p| <= |s| && s[|s| - |p|..] == p }

  /** A concatenation lies at i exactly when its two parts lie there one
      after the other. */
  lemma OccursSplit(s: string, a: string, b: string, i: int)
    ensures OccursAt(s, a + b, i) <==> OccursAt(s, a, i) && OccursAt(s, b, i + |a|)
  {
    if 0 <= i && i + |a| + |b| <= |s| {
      var x := s[i..i + |a| + |b|];
      assert x[..|a|] == s[i..i + |a|] && x[|a|..] == s[i + |a|..i + |a| + |b|];
      assert (a + b)[..|a|] == a && (a + b)[|a|..] == b;
      assert x == x[..|a|] + x[|a|..];
    }
  }

  /** A text built as a + b + c starts with a, holds b right after it and
      ends with c. */
  lemma Framed(a: string, b: string, c: string)
    ensures StartsWith(a + b + c, a) && EndsWith(a + b + c, c)
    ensures (a + b + c)[|a|..|a| + |b|] == b
  {
    var r := a + b + c;
    assert r[..|a|] == a;
    assert r[|r| - |c|..] == c;
    assert r[|a|..|a| + |b|] == b;
  }

  /** Two literals that differ at index j cannot both lie at i. */
  lemma OccursExcludes(s: string, p: string, q: string, i: int, j: nat)
    requires OccursAt(s, p, i) && j < |p| && j < |q| && p[j] != q[j]
    ensures !OccursAt(s, q, i)
  {
    if i + |q| <= |s| {
      assert s[i..i + |q|][j] == s[i + j] == s[i..i + |p|][j];
    }
  }

  /** String.contains */
  predicate Contains(s: string, p: string) { exists i | 0 <= i <= |s| - |p| :: OccursAt(s, p, i) }

  /** String.lastIndexOf(char): the last index holding c, or -1. */
  function LastIndexOf(s: string, c: char): (r: int)
    ensures -1 <= r < |s|
    ensures r >= 0 ==> s[r] == c && forall k :: r < k < |s| ==> s[k] != c
    ensures r == -1 ==> c !in s
  {
    if s == [] then -1
    else if s[|s| - 1] == c then |s| - 1
    else LastIndexOf(s[..|s| - 1], c)
  }

  /** The last index holding c is the one after which no c follows. */
  lemma LastIndexOfIs(s: string, c: char, r: nat)
    requires r < |s| && s[r] == c
    requires forall k :: r < k < |s| ==> s[k] != c
    ensures LastIndexOf(s, c) == r
  {
    var q := LastIndexOf(s, c);
    assert c in s;
    assert q >= r;
  }

  /** String.replace(target, replacement): a single left-to-right pass over
      non-overlapping occurrences of a non-empty target. */
  function ReplaceLiteral(s: string, target: string, replacement: string): (r: string)
    requires target != []
    decreases |s|
  {
    if s == [] then []
    else if StartsWith(s, target) then replacement + ReplaceLiteral(s[|target|..], target, replacement)
    else [s[0]] + ReplaceLiteral(s[1..], target, replacement)
  }

  /** An occurrence in the tail of s is an occurrence in s. */
  lemma ContainsTail(s: string, p: string)
    requires s != [] && Contains(s[1..], p)
    ensures Contains(s, p)
  {
    var i :| 0 <= i <= |s[1..]| - |p| && OccursAt(s[1..], p, i);
    assert s[i + 1..i + 1 + |p|] == s[1..][i..i + |p|];
    assert OccursAt(s, p, i + 1);
  }

  /** Replacing a target that does not occur changes nothing. */
  lemma {:induction false} ReplaceAbsent(s: string, target: string, replacement: string)
    requires target != [] && !Contains(s, target)
    ensures ReplaceLiteral(s, target, replacement) == s
    decreases |s|
  {
    if s != [] {
      assert !OccursAt(s, target, 0);
      assert !StartsWith(s, target);
      if Contains(s[1..], target) {
        ContainsTail(s, target);
      }
      ReplaceAbsent(s[1..], target, replacement);
      assert [s[0]] + s[1..] == s;
    }
  }

  /** Erasing a target that follows a text without it gives the text back,
      when the target's first character does not recur in it (so no suffix
      of the text can start an occurrence that runs into the target). */
  lemma {:induction false} ReplaceStripsSuffix(n: string, target: string)
    requires target != [] && !Contains(n, target)
    requires forall k :: 0 < k < |target| ==> target[k] != target[0]
    ensures ReplaceLiteral(n + target, target, "") == n
    decreases |n|
  {
    var s := n + target;
    if n == [] {
      assert s == target && s[|target|..] == [];
    } else {
      if |n| >= |target| {
        assert !OccursAt(n, target, 0);
        assert s[..|target|] == n[..|target|];
      } else {
        assert s[|n|] == target[0] != target[|n|];
      }
      assert !StartsWith(s, target);
      if Contains(n[1..], target) {
        ContainsTail(n, target);
      }
      ReplaceStripsSuffix(n[1..], target);
      assert s[1..] == n[1..] + target;
      assert [s[0]] + n[1..] == n;
    }
  }

  // ---------------------------------------------------------------- numbers

  const INT_MIN: int := -0x8000_0000
  const INT_MAX: int := 0x7FFF_FFFF
  const LONG_MIN: int := -0x8000_0000_0000_0000
  const LONG_MAX: int := 0x7FFF_FFFF_FFFF_FFFF

  predicate IsDigit(c: char) { '0' <= c <= '9' }

  function DigitValue(c: char): nat requires IsDigit(c) { c as int - '0' as int }

  function DigitChar(d: nat): (c: char)
    requires d < 10
    ensures IsDigit(c) && DigitValue(c) == d
  {
    ('0' as int + d) as char
  }

  predicate AllDigits(s: string) { forall k :: 0 <= k < |s| ==> IsDigit(s[k]) }

  /** Value of a string of decimal digits. */
  function DigitsValue(s: string): nat
    requires AllDigits(s)
  {
    if s == [] then 0 else DigitsValue(s[..|s| - 1]) * 10 + DigitValue(s[|s| - 1])
  }

  /** Decimal rendering of a natural number, as Long.toString gives it. */
  function NatToString(n: nat): (r: string)
    ensures r != [] && AllDigits(r)
    decreases n
  {
    if n < 10 then [DigitChar(n)] else NatToString(n / 10) + [DigitChar(n % 10)]
  }

  /** String.valueOf(long) / StringBuilder.append(int). */
  function IntToString(n: int): string {
    if n < 0 then "-" + NatToString(-n) else NatToString(n)
  }

  /** Long.parseLong / Integer.parseInt restricted to ASCII digits: an optional
      sign, at least one digit, and a value inside [lo, hi]; otherwise the
      NumberFormatException, here None. */
  function ParseInteger(s: string, lo: int, hi: int): (r: Option<int>)
    ensures r.Some? ==> lo <= r.value <= hi
  {
    var neg := s != [] && s[0] == '-';
    var body := if s != [] && (s[0] == '-' || s[0] == '+') then s[1..] else s;
    if body == [] || !AllDigits(body) then None
    else
      var v: int := if neg then 0 - DigitsValue(body) as int else DigitsValue(body);
      if lo <= v <= hi then Some(v) else None
  }

  lemma {:induction false} NatToStringValue(n: nat)
    ensures DigitsValue(NatToString(n)) == n
    decreases n
  {
    if n >= 10 {
      var s := NatToString(n);
      NatToStringValue(n / 10);
      assert s[..|s| - 1] == NatToString(n / 10);
    }
  }

  /** Rendering and parsing are inverse on the representable range. */
  lemma ParseRendered(n: int, lo: int, hi: int)
    requires lo <= n <= hi
    ensures ParseInteger(IntToString(n), lo, hi) == Some(n)
  {
    NatToStringValue(if n < 0 then -n else n);
    if n < 0 {
      assert ("-" + NatToString(-n))[1..] == NatToString(-n);
    } else {
      assert IsDigit(NatToString(n)[0]);
    }
  }

  function Abs(x: int): nat { if x < 0 then -x else x }

  /** Java's `/` on integers truncates toward zero: q * b lies between 0 and
      a (inclusive) and is less than |b| away from a. */
  function JavaDiv(a: int, b: int): (q: int)
    requires b != 0
    ensures a >= 0 ==> 0 <= q * b <= a
    ensures a <= 0 ==> a <= q * b <= 0
    ensures Abs(a) - Abs(q * b) < Abs(b)
  {
    var m := Abs(a) / Abs(b);
    var q := if (a >= 0) == (b > 0) then m else -m;
    TruncatedProduct(a, b, m, q);
    q
  }

  /** The product behind JavaDiv: |q * b| is |a| rounded down to a multiple
      of |b|, and q * b carries the sign of a. */
  lemma TruncatedProduct(a: int, b: int, m: int, q: int)
    requires b != 0 && m == Abs(a) / Abs(b) && q == (if (a >= 0) == (b > 0) then m else -m)
    ensures a >= 0 ==> 0 <= q * b <= a
    ensures a <= 0 ==> a <= q * b <= 0
    ensures Abs(a) - Abs(q * b) < Abs(b)
  {
    var d: int := Abs(b);
    var p := m * d;
    assert Abs(a) == p + Abs(a) % d;
    assert 0 <= p by {
      assert m >= 0;
    }
    if b > 0 {
      assert q * b == (if a >= 0 then p else -p);
    } else {
      assert q * b == (if a >= 0 then p else -p) by {
        assert b == -d;
        assert q * b == -(q * d);
      }
    }
  }

  /** Truncation, unlike Dafny's Euclidean division, rounds toward zero for
      every sign of the divisor. */
  lemma JavaDivSigns()
    ensures JavaDiv(-7, 2) == -3 && JavaDiv(7, -2) == -3 && JavaDiv(-7, -2) == 3
  {
    assert -7 / 2 == -4 && 7 / -2 == -3 && -7 / -2 == 4;
  }
}
