/**
 * The parts of Python's `str` that the analysis uses: whitespace and word
 * character classes, ASCII case mapping, `strip`, substring tests, `join`
 * and splitting on one character.
 */
module Text {

  /** Python's `str.isspace()` for one character (also what `\s` matches). */
  predicate IsSpace(c: char) {
    c == ' ' || c == '\t' || c == '\n' || c == '\r' || c == '\U{000B}' || c == '\U{000C}'
    || ('\U{001C}' <= c <= '\U{001F}') || c == '\U{0085}' || c == '\U{00A0}'
    || c == '\U{1680}' || ('\U{2000}' <= c <= '\U{200A}') || c == '\U{2028}'
    || c == '\U{2029}' || c == '\U{202F}' || c == '\U{205F}' || c == '\U{3000}'
  }

  /** The characters for which `IsSpace` holds. */
  const Whitespace: set<char> := set c: char | '\t' <= c <= '\U{3000}' && IsSpace(c)

  predicate IsDigit(c: char) { '0' <= c <= '9' }

  predicate IsUpperLetter(c: char) { 'A' <= c <= 'Z' }

  predicate IsLowerLetter(c: char) { 'a' <= c <= 'z' }

  /** A character of the regular-expression class `\w` (ASCII part). */
  predicate IsWordChar(c: char) {
    IsUpperLetter(c) || IsLowerLetter(c) || IsDigit(c) || c == '_'
  }

  function UpperChar(c: char): (u: char)
    ensures !IsLowerLetter(u)
    ensures if IsLowerLetter(c) then IsUpperLetter(u) else u == c
  {
    if IsLowerLetter(c) then (c as int - 32) as char else c
  }

  function LowerChar(c: char): (l: char)
    ensures !IsUpperLetter(l)
    ensures if IsUpperLetter(c) then IsLowerLetter(l) else l == c
  {
    if IsUpperLetter(c) then (c as int + 32) as char else c
  }

  /** `s.upper()`, for the ASCII letters. */
  function Upper(s: string): (u: string)
    ensures |u| == |s|
    ensures forall i :: 0 <= i < |s| ==> u[i] == UpperChar(s[i])
  {
    seq(|s|, i requires 0 <= i < |s| => UpperChar(s[i]))
  }

  /** `s.lower()`, for the ASCII letters. */
  function Lower(s: string): (l: string)
    ensures |l| == |s|
    ensures forall i :: 0 <= i < |s| ==> l[i] == LowerChar(s[i])
  {
    seq(|s|, i requires 0 <= i < |s| => LowerChar(s[i]))
  }

  lemma UpperHasNoLowerLetter(s: string)
    ensures forall i :: 0 <= i < |Upper(s)| ==> !IsLowerLetter(Upper(s)[i])
  {
  }

  /** Upper-casing works character by character, so it distributes over `+`. */
  lemma UpperConcat(a: string, b: string)
    ensures Upper(a + b) == Upper(a) + Upper(b)
  {
  }

  /** A string with no lower-case letter is its own upper case. */
  lemma UpperIdentity(s: string)
    requires forall i :: 0 <= i < |s| ==> !IsLowerLetter(s[i])
    ensures Upper(s) == s
  {
  }

  /** Upper-casing neither adds nor removes a character that is not a letter. */
  lemma UpperKeepsNonLetter(s: string, c: char)
    requires !IsLowerLetter(c) && !IsUpperLetter(c)
    ensures c in Upper(s) <==> c in s
  {
    if c in Upper(s) {
      var i :| 0 <= i < |s| && Upper(s)[i] == c;
      assert s[i] == c;
    }
    if c in s {
      var i :| 0 <= i < |s| && s[i] == c;
      assert Upper(s)[i] == c;
    }
  }

  /** The value of one decimal digit. */
  function DigitValue(c: char): nat {
    if IsDigit(c) then c as int - '0' as int else 0
  }

  /** `int(digits)` for a string of decimal digits. */
  function DecimalValue(digits: string): nat
    decreases |digits|
  {
    if digits == [] then 0
    else 10 * DecimalValue(digits[..|digits| - 1]) + DigitValue(digits[|digits| - 1])
  }

  /** How many leading characters of `s` are in `chars`. */
  function LeadCount(s: string, chars: set<char>): (n: nat)
    ensures n <= |s|
    ensures forall i :: 0 <= i < n ==> s[i] in chars
    ensures n == |s| || s[n] !in chars
  {
    if s == [] || s[0] !in chars then 0 else 1 + LeadCount(s[1..], chars)
  }

  /** How many trailing characters of `s` are in `chars`. */
  function TrailCount(s: string, chars: set<char>): (n: nat)
    ensures n <= |s|
    ensures forall i :: |s| - n <= i < |s| ==> s[i] in chars
    ensures n == |s| || s[|s| - n - 1] !in chars
  {
    if s == [] || s[|s| - 1] !in chars then 0 else 1 + TrailCount(s[..|s| - 1], chars)
  }

  /** `s.lstrip(chars)` */
  function LStrip(s: string, chars: set<char>): string {
    s[LeadCount(s, chars)..]
  }

  /** `s.rstrip(chars)` */
  function RStrip(s: string, chars: set<char>): string {
    s[..|s| - TrailCount(s, chars)]
  }

  /** `s.strip(chars)`: both ends lose every character in `chars`. */
  function StripChars(s: string, chars: set<char>): (r: string)
    ensures |r| <= |s|
    ensures r == [] || (r[0] !in chars && r[|r| - 1] !in chars)
  {
    RStrip(LStrip(s, chars), chars)
  }

  /** Stripping only removes characters: what is left was there before. */
  lemma StripCharsSub(s: string, chars: set<char>)
    ensures forall c :: c in StripChars(s, chars) ==> c in s
  {
    var l := LStrip(s, chars);
    assert forall c :: c in RStrip(l, chars) ==> c in l;
  }

  /** `s.strip()` */
  function Strip(s: string): string {
    StripChars(s, Whitespace)
  }

  /** A character outside `Whitespace` is not a space. */
  lemma NotSpace(c: char)
    requires c !in Whitespace
    ensures !IsSpace(c)
  {
  }

  /** A character outside `chars` survives stripping, so the result is not empty. */
  lemma StripCharsNonEmpty(s: string, chars: set<char>, j: nat)
    requires j < |s| && s[j] !in chars
    ensures StripChars(s, chars) != []
  {
    var a := LeadCount(s, chars);
    assert a <= j;
    var l := s[a..];
    assert l[j - a] !in chars;
    assert TrailCount(l, chars) <= |l| - 1 - (j - a);
  }

  /** A string whose two end characters survive stripping is left as it is. */
  lemma {:induction false} StripCharsKeeps(s: string, chars: set<char>)
    requires s == [] || (s[0] !in chars && s[|s| - 1] !in chars)
    ensures StripChars(s, chars) == s
  {
  }

  /** Stripped characters appended to a string whose ends survive are stripped again. */
  lemma {:induction false} StripCharsDropsTail(s: string, t: string, chars: set<char>)
    requires s != [] && s[0] !in chars && s[|s| - 1] !in chars
    requires forall i :: 0 <= i < |t| ==> t[i] in chars
    ensures StripChars(s + t, chars) == s
  {
    assert (s + t)[0] == s[0];
    assert LStrip(s + t, chars) == s + t;
    TrailCountOfTail(s, t, chars);
    assert (s + t)[..|s|] == s;
  }

  lemma {:induction false} TrailCountOfTail(s: string, t: string, chars: set<char>)
    requires s != [] && s[|s| - 1] !in chars
    requires forall i :: 0 <= i < |t| ==> t[i] in chars
    ensures TrailCount(s + t, chars) == |t|
    decreases |t|
  {
    if t == [] {
      assert s + t == s;
    } else {
      assert (s + t)[..|s + t| - 1] == s + t[..|t| - 1];
      TrailCountOfTail(s, t[..|t| - 1], chars);
    }
  }

  /** `sub` occurs in `s` starting at index `i`. */
  predicate OccursAt(s: string, sub: string, i: nat) {
    i + |sub| <= |s| && s[i..i + |sub|] == sub
  }

  /** `sub in s` */
  predicate Contains(s: string, sub: string) {
    exists i: nat | i <= |s| :: OccursAt(s, sub, i)
  }

  predicate StartsWith(s: string, prefix: string) {
    |prefix| <= |s| && s[..|prefix|] == prefix
  }

  /** A string that starts with `prefix` is `prefix` followed by the rest. */
  lemma StartsWithSplit(s: string, prefix: string)
    requires StartsWith(s, prefix)
    ensures s == prefix + s[|prefix|..]
  {
    assert s == s[..|prefix|] + s[|prefix|..];
  }

  predicate EndsWith(s: string, suffix: string) {
    |suffix| <= |s| && s[|s| - |suffix|..] == suffix
  }

  /** A string ends with whatever was appended to it. */
  lemma EndsWithAppended(s: string, suffix: string)
    ensures EndsWith(s + suffix, suffix)
  {
    assert (s + suffix)[|s|..] == suffix;
  }

  /** A string with no ASCII lower-case letter contains no string that has one. */
  lemma {:induction false} NoLowerNoLowerSub(s: string, sub: string, k: nat)
    requires forall i :: 0 <= i < |s| ==> !IsLowerLetter(s[i])
    requires k < |sub| && IsLowerLetter(sub[k])
    ensures !Contains(s, sub)
  {
    forall i: nat | i <= |s|
      ensures !OccursAt(s, sub, i)
    {
      if i + |sub| <= |s| {
        assert s[i..i + |sub|][k] == s[i + k];
      }
    }
  }

  /** `sep.join(xs)` */
  function Join(xs: seq<string>, sep: string): string {
    if |xs| == 0 then ""
    else if |xs| == 1 then xs[0]
    else xs[0] + sep + Join(xs[1..], sep)
  }

  /** The index of the first `c` in `s`, or `|s|` when there is none. */
  function FirstIndex(s: string, c: char): (n: nat)
    ensures n <= |s|
    ensures forall i :: 0 <= i < n ==> s[i] != c
    ensures n == |s| || s[n] == c
  {
    if s == [] || s[0] == c then 0 else 1 + FirstIndex(s[1..], c)
  }

  /** How many characters follow the last `c` in `s` (all of them when there is none). */
  function LastRun(s: string, c: char): (n: nat)
    ensures n <= |s|
    ensures forall i :: |s| - n <= i < |s| ==> s[i] != c
    ensures n == |s| || s[|s| - n - 1] == c
  {
    if s == [] || s[|s| - 1] == c then 0 else 1 + LastRun(s[..|s| - 1], c)
  }

  /** Without a `c` in `s`, every character follows the last `c`. */
  lemma {:induction false} LastRunAbsent(s: string, c: char)
    requires c !in s
    ensures LastRun(s, c) == |s|
    decreases |s|
  {
    if s != [] {
      var t := s[..|s| - 1];
      assert forall i :: 0 <= i < |t| ==> t[i] == s[i];
      LastRunAbsent(t, c);
    }
  }

  /** `s.split(c)[0]`: the text before the first `c`, or all of `s`. */
  function BeforeFirst(s: string, c: char): (r: string)
    ensures c !in r
  {
    var n := FirstIndex(s, c);
    assert forall i :: 0 <= i < n ==> s[..n][i] == s[i];
    s[..n]
  }

  /** `s.split(c)[-1]`: the text after the last `c`, or all of `s`. */
  function AfterLast(s: string, c: char): (r: string)
    ensures c !in r
  {
    var n := LastRun(s, c);
    var r := s[|s| - n..];
    assert forall i :: 0 <= i < |r| ==> r[i] == s[|s| - n + i];
    r
  }

  /** `s.split(c)` for a one-character separator. */
  function Split(s: string, c: char): (parts: seq<string>)
    ensures |parts| >= 1
    ensures forall k :: 0 <= k < |parts| ==> c !in parts[k]
    decreases |s|
  {
    var head := BeforeFirst(s, c);
    if |head| == |s| then [s] else [head] + Split(s[|head| + 1..], c)
  }

  /** Splitting a join on a separator that no part contains gives the parts back. */
  lemma {:induction false} SplitJoin(xs: seq<string>, c: char)
    requires |xs| >= 1
    requires forall k :: 0 <= k < |xs| ==> c !in xs[k]
    ensures Split(Join(xs, [c]), c) == xs
  {
    var s := Join(xs, [c]);
    if |xs| == 1 {
      FirstIndexOfPartThenSep(xs[0], [], c);
      assert s == xs[0] + [];
    } else {
      var rest := [c] + Join(xs[1..], [c]);
      assert s == xs[0] + rest;
      FirstIndexOfPartThenSep(xs[0], rest, c);
      assert BeforeFirst(s, c) == xs[0];
      assert s[|xs[0]| + 1..] == Join(xs[1..], [c]);
      SplitJoin(xs[1..], c);
    }
  }

  lemma {:induction false} FirstIndexOfPartThenSep(x: string, rest: string, c: char)
    requires c !in x
    requires rest == [] || rest[0] == c
    ensures FirstIndex(x + rest, c) == |x|
  {
    if x != [] {
      assert (x + rest)[1..] == x[1..] + rest;
      FirstIndexOfPartThenSep(x[1..], rest, c);
    } else {
      assert x + rest == rest;
    }
  }
}
