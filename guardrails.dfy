/**
 * Redaction of personal data before text is logged: card-like numbers,
 * phone numbers and nine-digit identifiers, each a whole word, are
 * replaced by fixed markers, one pattern after the other.
 */
module Guardrails {
  import opened Wrappers
  import opened Text

  /** The three patterns of `PII_PATTERNS`. */
  datatype Pattern =
    | DigitWord(lo: nat, hi: nat)   // `\b\d{lo,hi}\b`
    | Phone                         // `\b\d{3}-\d{3}-\d{4}\b`

  const CardMarker: string := "[REDACTED_CARD]"
  const PhoneMarker: string := "[REDACTED_PHONE]"
  const IdMarker: string := "[REDACTED_SSN_OR_NAS]"

  /** `PII_PATTERNS`, in the order they are applied. */
  const PiiPatterns: seq<(Pattern, string)> :=
    [(DigitWord(13, 19), CardMarker), (Phone, PhoneMarker), (DigitWord(9, 9), IdMarker)]

  /** How many digits follow position `i` of `s` without a break. */
  function DigitRun(s: string, i: nat): (n: nat)
    requires i <= |s|
    ensures i + n <= |s|
    ensures forall k :: i <= k < i + n ==> IsDigit(s[k])
    ensures i + n == |s| || !IsDigit(s[i + n])
    decreases |s| - i
  {
    if i == |s| || !IsDigit(s[i]) then 0 else 1 + DigitRun(s, i + 1)
  }

  /** `\b` before a word character at `i`: the text starts there or a non-word character precedes. */
  predicate OpensWord(s: string, i: nat)
    requires i <= |s|
  {
    i == 0 || !IsWordChar(s[i - 1])
  }

  /** `\b` after a word character ending at `i`: the text ends there or a non-word character follows. */
  predicate ClosesWord(s: string, i: nat)
    requires i <= |s|
  {
    i == |s| || !IsWordChar(s[i])
  }

  /** `s[i..j]` is all digits. */
  predicate Digits(s: string, i: nat, j: nat)
    requires i <= j <= |s|
  {
    forall k :: i <= k < j ==> IsDigit(s[k])
  }

  /**
   * The length of the match of `p` at position `i` of `s`, if it matches
   * there. For a digit word the greedy `\d{lo,hi}` can only end at a word
   * boundary where the digit run ends, so it matches exactly when the whole
   * run from `i` has between `lo` and `hi` digits and is a word of its own.
   */
  function MatchAt(p: Pattern, s: string, i: nat): (m: Option<nat>)
    requires i <= |s|
    ensures m.Some? ==> 0 < m.value && i + m.value <= |s| && IsDigit(s[i])
  {
    match p
    case DigitWord(lo, hi) =>
      var n := DigitRun(s, i);
      if 0 < lo && lo <= n <= hi && OpensWord(s, i) && ClosesWord(s, i + n) then Some(n) else None
    case Phone =>
      if i + 12 <= |s| && OpensWord(s, i) && Digits(s, i, i + 3) && s[i + 3] == '-'
        && Digits(s, i + 4, i + 7) && s[i + 7] == '-' && Digits(s, i + 8, i + 12)
        && ClosesWord(s, i + 12)
      then Some(12) else None
  }

  /** `pat.sub(rep, s)` from position `i` on: scan left to right, replacing each match and resuming after it. */
  function SubFrom(p: Pattern, rep: string, s: string, i: nat): string
    requires i <= |s|
    decreases |s| - i
  {
    if i == |s| then []
    else
      match MatchAt(p, s, i)
      case Some(m) => rep + SubFrom(p, rep, s, i + m)
      case None => [s[i]] + SubFrom(p, rep, s, i + 1)
  }

  /** `pat.sub(rep, s)` */
  function Sub(p: Pattern, rep: string, s: string): string {
    SubFrom(p, rep, s, 0)
  }

  /** What `redact_for_logs` returns: the patterns applied one after the other. */
  function Redacted(text: string): string {
    Sub(DigitWord(9, 9), IdMarker, Sub(Phone, PhoneMarker, Sub(DigitWord(13, 19), CardMarker, text)))
  }

  /** `redact_for_logs(text)` */
  method RedactForLogs(text: string) returns (red: string)
    ensures red == Redacted(text)
  {
    ghost var card := Sub(DigitWord(13, 19), CardMarker, text);
    ghost var phone := Sub(Phone, PhoneMarker, card);
    ghost var stages := [text, card, phone, Redacted(text)];
    red := text;
    var k := 0;
    while k < |PiiPatterns|
      invariant 0 <= k <= |PiiPatterns|
      invariant red == stages[k]
    {
      var (pat, rep) := PiiPatterns[k];
      red := Sub(pat, rep, red);
      k := k + 1;
    }
  }

  // ----- Properties -----

  /** Where no match starts in `s[i..j]`, the substitution copies those characters. */
  lemma {:induction false} SubCopies(p: Pattern, rep: string, s: string, i: nat, j: nat)
    requires i <= j <= |s|
    requires forall k :: i <= k < j ==> MatchAt(p, s, k).None?
    ensures SubFrom(p, rep, s, i) == s[i..j] + SubFrom(p, rep, s, j)
    decreases j - i
  {
    if i < j {
      SubSkip(p, rep, s, i);
      SubCopies(p, rep, s, i + 1, j);
      SliceCons(s, i, j, SubFrom(p, rep, s, j));
    }
  }

  lemma SliceCons<T>(s: seq<T>, i: nat, j: nat, tail: seq<T>)
    requires i < j <= |s|
    ensures s[i..j] + tail == [s[i]] + (s[i + 1..j] + tail)
  {
    assert s[i..j] == [s[i]] + s[i + 1..j];
  }

  /** Without a match at `i`, the character there is copied. */
  lemma SubSkip(p: Pattern, rep: string, s: string, i: nat)
    requires i < |s| && MatchAt(p, s, i).None?
    ensures SubFrom(p, rep, s, i) == [s[i]] + SubFrom(p, rep, s, i + 1)
  {
  }

  /** A string without a digit has no match, so every pattern leaves it as it is. */
  lemma SubWithoutDigits(p: Pattern, rep: string, s: string)
    requires forall k :: 0 <= k < |s| ==> !IsDigit(s[k])
    ensures Sub(p, rep, s) == s
  {
    SubCopiesToEnd(p, rep, s, 0);
  }

  /** Text containing no digits is logged unchanged. */
  lemma NoDigitsUnchanged(text: string)
    requires forall k :: 0 <= k < |text| ==> !IsDigit(text[k])
    ensures Redacted(text) == text
  {
    SubWithoutDigits(DigitWord(13, 19), CardMarker, text);
    SubWithoutDigits(Phone, PhoneMarker, text);
    SubWithoutDigits(DigitWord(9, 9), IdMarker, text);
  }

  /** The markers carry no digit. */
  lemma MarkersHaveNoDigits()
    ensures forall k :: 0 <= k < |CardMarker| ==> !IsDigit(CardMarker[k])
    ensures forall k :: 0 <= k < |PhoneMarker| ==> !IsDigit(PhoneMarker[k])
    ensures forall k :: 0 <= k < |IdMarker| ==> !IsDigit(IdMarker[k])
  {
  }

  /** Digit-free text around a digit word: the word alone is a match of a digit-word pattern. */
  predicate Framed(pre: string, word: string, post: string) {
    && (forall k :: 0 <= k < |pre| ==> !IsDigit(pre[k]))
    && (forall k :: 0 <= k < |post| ==> !IsDigit(post[k]))
    && (forall k :: 0 <= k < |word| ==> IsDigit(word[k]))
    && (pre == [] || !IsWordChar(pre[|pre| - 1]))
    && (post == [] || !IsWordChar(post[0]))
  }

  /** The digit word framed by `pre` and `post` is replaced, and nothing else changes. */
  lemma {:induction false} DigitWordReplaced(lo: nat, hi: nat, rep: string, pre: string, word: string, post: string)
    requires 0 < lo <= |word| <= hi
    requires Framed(pre, word, post)
    ensures Sub(DigitWord(lo, hi), rep, pre + word + post) == pre + rep + post
  {
    var p := DigitWord(lo, hi);
    var s := pre + word + post;
    var a, b := |pre|, |pre| + |word|;
    forall k | 0 <= k < a ensures MatchAt(p, s, k).None? {
      assert s[k] == pre[k];
    }
    forall k | b <= k < |s| ensures MatchAt(p, s, k).None? {
      assert s[k] == post[k - b];
    }
    WordMatches(lo, hi, pre, word, post);
    SubOneMatch(p, rep, s, a, |word|);
    assert s[..a] == pre && s[b..] == post;
  }

  /** With exactly one match, at `a`, the substitution replaces it and copies everything else. */
  lemma SubOneMatch(p: Pattern, rep: string, s: string, a: nat, m: nat)
    requires a + m <= |s| && a < |s| && MatchAt(p, s, a) == Some(m)
    requires forall k :: 0 <= k < a ==> MatchAt(p, s, k).None?
    requires forall k :: a + m <= k < |s| ==> MatchAt(p, s, k).None?
    ensures Sub(p, rep, s) == s[..a] + rep + s[a + m..]
  {
    SubCopiesToEnd(p, rep, s, a + m);
    SubTake(p, rep, s, a, m);
    SubCopies(p, rep, s, 0, a);
    assert s[0..a] == s[..a];
    Compose(Sub(p, rep, s), SubFrom(p, rep, s, a), SubFrom(p, rep, s, a + m), s[..a], rep, s[a + m..]);
  }

  lemma Compose<T>(x0: seq<T>, x1: seq<T>, x2: seq<T>, u: seq<T>, v: seq<T>, w: seq<T>)
    requires x0 == u + x1 && x1 == v + x2 && x2 == w
    ensures x0 == u + v + w
  {
  }

  /** Where no match starts from `i` on, the rest of the text is copied. */
  lemma SubCopiesToEnd(p: Pattern, rep: string, s: string, i: nat)
    requires i <= |s|
    requires forall k :: i <= k < |s| ==> MatchAt(p, s, k).None?
    ensures SubFrom(p, rep, s, i) == s[i..]
  {
    SubCopies(p, rep, s, i, |s|);
    assert s[i..|s|] == s[i..];
  }

  /** The framed word is a match of its own length. */
  lemma WordMatches(lo: nat, hi: nat, pre: string, word: string, post: string)
    requires 0 < lo <= |word| <= hi
    requires Framed(pre, word, post)
    ensures MatchAt(DigitWord(lo, hi), pre + word + post, |pre|) == Some(|word|)
  {
    var s := pre + word + post;
    var a, b := |pre|, |pre| + |word|;
    assert Digits(s, a, b) by {
      forall k | a <= k < b ensures IsDigit(s[k]) { assert s[k] == word[k - a]; }
    }
    if b < |s| {
      assert s[b] == post[0];
    }
    if a > 0 {
      assert s[a - 1] == pre[a - 1];
    }
    DigitRunTo(s, a, b);
  }

  /** A match at `i` is replaced, and the scan resumes after it. */
  lemma SubTake(p: Pattern, rep: string, s: string, i: nat, m: nat)
    requires i < |s| && MatchAt(p, s, i) == Some(m)
    ensures SubFrom(p, rep, s, i) == rep + SubFrom(p, rep, s, i + m)
  {
  }

  /** The run of digits from `i` is exactly `s[i..j]` when a non-digit or the end follows. */
  lemma {:induction false} DigitRunTo(s: string, i: nat, j: nat)
    requires i <= j <= |s|
    requires Digits(s, i, j) && (j == |s| || !IsDigit(s[j]))
    ensures DigitRun(s, i) == j - i
    decreases j - i
  {
    if i < j {
      DigitRunTo(s, i + 1, j);
    }
  }

  /** A digit word pattern never starts a match right after a digit: `\b` fails there. */
  lemma NoMatchAfterDigit(lo: nat, hi: nat, s: string, k: nat)
    requires 0 < k <= |s| && IsDigit(s[k - 1])
    ensures MatchAt(DigitWord(lo, hi), s, k).None?
  {
  }

  /**
   * In a framed digit word, the only place a digit-word pattern can match is
   * the start of the word, and it matches there when the length is in range.
   */
  lemma FramedMatches(lo: nat, hi: nat, pre: string, word: string, post: string, k: nat)
    requires Framed(pre, word, post) && 0 < lo && k <= |pre + word + post|
    ensures MatchAt(DigitWord(lo, hi), pre + word + post, k).Some? <==>
      k == |pre| && lo <= |word| <= hi && word != []
  {
    var s := pre + word + post;
    var a, b := |pre|, |pre| + |word|;
    if k < a {
      assert s[k] == pre[k];
    } else if k == a {
      if word != [] {
        assert Digits(s, a, b) by {
          forall i | a <= i < b ensures IsDigit(s[i]) { assert s[i] == word[i - a]; }
        }
        if b < |s| {
          assert s[b] == post[0];
        }
        if a > 0 {
          assert s[a - 1] == pre[a - 1];
        }
        DigitRunTo(s, a, b);
      } else if k < |s| {
        assert s[k] == post[0];
      }
    } else if k < b {
      assert s[k - 1] == word[k - 1 - a];
      NoMatchAfterDigit(lo, hi, s, k);
    } else if k < |s| {
      assert s[k] == post[k - b];
    }
  }

  /** The phone pattern needs two separated digit groups, so it never matches in a framed word. */
  lemma PhoneNeverFramed(pre: string, word: string, post: string, k: nat)
    requires Framed(pre, word, post) && k <= |pre + word + post|
    ensures MatchAt(Phone, pre + word + post, k).None?
  {
    var s := pre + word + post;
    var a, b := |pre|, |pre| + |word|;
    if k + 12 <= |s| {
      if k < a {
        assert s[k] == pre[k];
      } else if k + 3 < b {
        assert s[k + 3] == word[k + 3 - a];
      } else {
        assert s[k + 8] == post[k + 8 - b];
      }
    }
  }

  /** A framed word whose length is out of range is left as it is. */
  lemma {:induction false} DigitWordKept(lo: nat, hi: nat, rep: string, pre: string, word: string, post: string)
    requires 0 < lo && !(lo <= |word| <= hi)
    requires Framed(pre, word, post)
    ensures Sub(DigitWord(lo, hi), rep, pre + word + post) == pre + word + post
  {
    var s := pre + word + post;
    forall k | 0 <= k < |s| ensures MatchAt(DigitWord(lo, hi), s, k).None? {
      FramedMatches(lo, hi, pre, word, post, k);
    }
    SubCopiesToEnd(DigitWord(lo, hi), rep, s, 0);
  }

  /** The phone pattern leaves a framed digit word as it is. */
  lemma {:induction false} PhoneKeepsFramed(rep: string, pre: string, word: string, post: string)
    requires Framed(pre, word, post)
    ensures Sub(Phone, rep, pre + word + post) == pre + word + post
  {
    var s := pre + word + post;
    forall k | 0 <= k < |s| ensures MatchAt(Phone, s, k).None? {
      PhoneNeverFramed(pre, word, post, k);
    }
    SubCopiesToEnd(Phone, rep, s, 0);
  }

  /** Text with no digit outside the markers: the remaining passes change nothing. */
  lemma DigitFreeRest(pre: string, marker: string, post: string)
    requires Framed(pre, [], post)
    requires forall k :: 0 <= k < |marker| ==> !IsDigit(marker[k])
    ensures forall k :: 0 <= k < |pre + marker + post| ==> !IsDigit((pre + marker + post)[k])
  {
  }

  /** A whole word of 13 to 19 digits is logged as the card marker. */
  lemma CardRedacted(pre: string, word: string, post: string)
    requires 13 <= |word| <= 19 && Framed(pre, word, post)
    ensures Redacted(pre + word + post) == pre + CardMarker + post
  {
    DigitWordReplaced(13, 19, CardMarker, pre, word, post);
    DigitFreeRest(pre, CardMarker, post);
    SubWithoutDigits(Phone, PhoneMarker, pre + CardMarker + post);
    SubWithoutDigits(DigitWord(9, 9), IdMarker, pre + CardMarker + post);
  }

  /** A whole word of exactly 9 digits is logged as the identifier marker. */
  lemma IdRedacted(pre: string, word: string, post: string)
    requires |word| == 9 && Framed(pre, word, post)
    ensures Redacted(pre + word + post) == pre + IdMarker + post
  {
    DigitWordKept(13, 19, CardMarker, pre, word, post);
    PhoneKeepsFramed(PhoneMarker, pre, word, post);
    DigitWordReplaced(9, 9, IdMarker, pre, word, post);
  }

  /** A word of digits whose length is neither 9 nor 13 to 19 is logged as it is. */
  lemma OtherDigitWordKept(pre: string, word: string, post: string)
    requires |word| != 9 && !(13 <= |word| <= 19) && Framed(pre, word, post)
    ensures Redacted(pre + word + post) == pre + word + post
  {
    DigitWordKept(13, 19, CardMarker, pre, word, post);
    PhoneKeepsFramed(PhoneMarker, pre, word, post);
    DigitWordKept(9, 9, IdMarker, pre, word, post);
  }

  /**
   * Digits glued to a letter or an underscore are not a word of their own:
   * `\b` fails, so no digit-word pattern replaces them.
   */
  lemma {:induction false} GluedDigitsKept(lo: nat, hi: nat, rep: string, pre: string, word: string, post: string)
    requires 0 < lo && word != []
    requires forall k :: 0 <= k < |pre| ==> !IsDigit(pre[k])
    requires forall k :: 0 <= k < |post| ==> !IsDigit(post[k])
    requires forall k :: 0 <= k < |word| ==> IsDigit(word[k])
    requires (pre != [] && IsWordChar(pre[|pre| - 1])) || (post != [] && IsWordChar(post[0]))
    ensures Sub(DigitWord(lo, hi), rep, pre + word + post) == pre + word + post
  {
    var s := pre + word + post;
    var a, b := |pre|, |pre| + |word|;
    forall k | 0 <= k < |s| ensures MatchAt(DigitWord(lo, hi), s, k).None? {
      if k < a {
        assert s[k] == pre[k];
      } else if k == a {
        if pre != [] && IsWordChar(pre[|pre| - 1]) {
          assert s[a - 1] == pre[a - 1];
        } else {
          assert Digits(s, a, b) by {
            forall i | a <= i < b ensures IsDigit(s[i]) { assert s[i] == word[i - a]; }
          }
          assert s[b] == post[0];
          DigitRunTo(s, a, b);
        }
      } else if k < b {
        assert s[k - 1] == word[k - 1 - a];
        NoMatchAfterDigit(lo, hi, s, k);
      } else {
        assert s[k] == post[k - b];
      }
    }
    SubCopiesToEnd(DigitWord(lo, hi), rep, s, 0);
  }

  /** A digit-word match needs at least `lo` digits from where it starts. */
  lemma DigitWordNeedsDigits(lo: nat, hi: nat, s: string, k: nat, j: nat)
    requires k <= j < k + lo && j < |s| && !IsDigit(s[j])
    ensures MatchAt(DigitWord(lo, hi), s, k).None?
  {
  }

  /** `ddd-ddd-dddd` */
  predicate PhoneShaped(ph: string) {
    && |ph| == 12 && ph[3] == '-' && ph[7] == '-'
    && forall k :: 0 <= k < 12 && k != 3 && k != 7 ==> IsDigit(ph[k])
  }

  /** A whole word shaped like a phone number is logged as the phone marker. */
  lemma PhoneRedacted(pre: string, ph: string, post: string)
    requires PhoneShaped(ph) && Framed(pre, [], post)
    ensures Redacted(pre + ph + post) == pre + PhoneMarker + post
  {
    var s := pre + ph + post;
    var a := |pre|;
    forall k | 0 <= k < |s| ensures MatchAt(DigitWord(13, 19), s, k).None? {
      if k < a {
        assert s[k] == pre[k];
      } else if k < a + 4 {
        assert s[a + 3] == ph[3];
        DigitWordNeedsDigits(13, 19, s, k, a + 3);
      } else if k < a + 8 {
        assert s[a + 7] == ph[7];
        DigitWordNeedsDigits(13, 19, s, k, a + 7);
      } else if k < a + 12 {
        if a + 12 < |s| {
          assert s[a + 12] == post[0];
          DigitWordNeedsDigits(13, 19, s, k, a + 12);
        }
      } else {
        assert s[k] == post[k - a - 12];
      }
    }
    SubCopiesToEnd(DigitWord(13, 19), CardMarker, s, 0);
    assert s[0..] == s;
    PhoneMatches(pre, ph, post);
    forall k | 0 <= k < a || a + 12 <= k < |s| ensures MatchAt(Phone, s, k).None? {
      if k < a {
        assert s[k] == pre[k];
      } else {
        assert s[k] == post[k - a - 12];
      }
    }
    SubOneMatch(Phone, PhoneMarker, s, a, 12);
    assert s[..a] == pre && s[a + 12..] == post;
    DigitFreeRest(pre, PhoneMarker, post);
    SubWithoutDigits(DigitWord(9, 9), IdMarker, pre + PhoneMarker + post);
  }

  /** The phone-shaped word is a match of the phone pattern. */
  lemma PhoneMatches(pre: string, ph: string, post: string)
    requires PhoneShaped(ph) && Framed(pre, [], post)
    ensures MatchAt(Phone, pre + ph + post, |pre|) == Some(12)
  {
    var s := pre + ph + post;
    var a := |pre|;
    forall k | a <= k < a + 12 ensures s[k] == ph[k - a] {
    }
    if a > 0 {
      assert s[a - 1] == pre[a - 1];
    }
    if a + 12 < |s| {
      assert s[a + 12] == post[0];
    }
  }

  // ----- Redaction in any context -----

  /**
   * A character at which every pattern splits the text: it is not a word
   * character, so `\b` holds on either side of it, and it is not `-`, so no
   * phone number runs across it.
   */
  predicate IsBoundary(c: char) {
    !IsWordChar(c) && c != '-'
  }

  /** `pre` ends, and `post` starts, at a boundary (or is empty). */
  predicate Bounded(pre: string, post: string) {
    && (pre == [] || IsBoundary(pre[|pre| - 1]))
    && (post == [] || IsBoundary(post[0]))
  }

  /** A digit-word match in a text that continues `y` after a non-word character is a match in `y`. */
  lemma DigitWordShift(lo: nat, hi: nat, s: string, y: string, o: nat, j: nat)
    requires 0 < o && o + |y| == |s| && j <= |y| && !IsWordChar(s[o - 1])
    requires forall k :: 0 <= k < |y| ==> s[o + k] == y[k]
    ensures MatchAt(DigitWord(lo, hi), s, o + j) == MatchAt(DigitWord(lo, hi), y, j)
  {
    var n := DigitRun(y, j);
    DigitsShift(s, y, o, j, j + n);
    if j + n < |y| {
      assert s[o + j + n] == y[j + n];
    }
    DigitRunTo(s, o + j, o + j + n);
    if j == 0 {
    } else {
      assert s[o + j - 1] == y[j - 1];
    }
    if j + n < |y| {
      assert s[o + j + n] == y[j + n];
    }
  }

  /** The same for the phone pattern. */
  lemma PhoneShift(s: string, y: string, o: nat, j: nat)
    requires 0 < o && o + |y| == |s| && j <= |y| && !IsWordChar(s[o - 1])
    requires forall k :: 0 <= k < |y| ==> s[o + k] == y[k]
    ensures MatchAt(Phone, s, o + j) == MatchAt(Phone, y, j)
  {
    if j + 12 <= |y| {
      DigitsShift(s, y, o, j, j + 3);
      DigitsShift(s, y, o, j + 4, j + 7);
      DigitsShift(s, y, o, j + 8, j + 12);
      assert s[o + j + 3] == y[j + 3] && s[o + j + 7] == y[j + 7];
      if j > 0 {
        assert s[o + j - 1] == y[j - 1];
      }
      if j + 12 < |y| {
        assert s[o + j + 12] == y[j + 12];
      }
    }
  }

  /** Digit groups read the same in a text and in the part of it that starts at `o`. */
  lemma DigitsShift(s: string, y: string, o: nat, a: nat, b: nat)
    requires o + |y| <= |s| && a <= b <= |y|
    requires forall k {:trigger y[k]} :: 0 <= k < |y| ==> s[o + k] == y[k]
    ensures Digits(s, o + a, o + b) == Digits(y, a, b)
  {
    if Digits(y, a, b) {
      forall k | o + a <= k < o + b ensures IsDigit(s[k]) {
        assert s[o + (k - o)] == y[k - o];
      }
    }
    if Digits(s, o + a, o + b) {
      forall k | a <= k < b ensures IsDigit(y[k]) {
        assert s[o + k] == y[k];
      }
    }
  }

  /** A digit-word match in a text that goes on past `x` with a non-word character is a match in `x`. */
  lemma DigitWordPrefix(lo: nat, hi: nat, s: string, x: string, i: nat)
    requires |x| < |s| && i < |x| && !IsWordChar(s[|x|])
    requires forall k {:trigger x[k]} :: 0 <= k < |x| ==> s[k] == x[k]
    ensures MatchAt(DigitWord(lo, hi), s, i) == MatchAt(DigitWord(lo, hi), x, i)
  {
    var n := DigitRun(x, i);
    DigitsShift(s, x, 0, i, i + n);
    if i + n < |x| {
      assert s[i + n] == x[i + n];
    }
    DigitRunTo(s, i, i + n);
    if i > 0 {
      assert s[i - 1] == x[i - 1];
    }
  }

  /** The same for the phone pattern, which cannot run across a boundary. */
  lemma PhonePrefix(s: string, x: string, i: nat)
    requires |x| < |s| && i < |x| && IsBoundary(s[|x|])
    requires forall k {:trigger x[k]} :: 0 <= k < |x| ==> s[k] == x[k]
    ensures MatchAt(Phone, s, i) == MatchAt(Phone, x, i)
  {
    if i > 0 {
      assert s[i - 1] == x[i - 1];
    }
    if i + 12 <= |x| {
      DigitsShift(s, x, 0, i, i + 3);
      DigitsShift(s, x, 0, i + 4, i + 7);
      DigitsShift(s, x, 0, i + 8, i + 12);
      assert s[i + 3] == x[i + 3] && s[i + 7] == x[i + 7];
      if i + 12 < |x| {
        assert s[i + 12] == x[i + 12];
      }
    } else if i + 12 <= |s| {
      var d := |x| - i;
      assert s[i + d] == s[|x|];
      if d < 3 {
        assert !Digits(s, i, i + 3);
      } else if d == 3 {
      } else if d < 7 {
        assert !Digits(s, i + 4, i + 7);
      } else if d == 7 {
      } else {
        assert !Digits(s, i + 8, i + 12);
      }
    }
  }

  /** One copy step: the same character, no match in either text, and equal results after it. */
  lemma StepNone(p: Pattern, rep: string, s: string, y: string, i: nat, j: nat)
    requires i < |s| && j < |y| && s[i] == y[j]
    requires MatchAt(p, s, i).None? && MatchAt(p, y, j).None?
    requires SubFrom(p, rep, s, i + 1) == SubFrom(p, rep, y, j + 1)
    ensures SubFrom(p, rep, s, i) == SubFrom(p, rep, y, j)
  {
    SubSkip(p, rep, s, i);
    SubSkip(p, rep, y, j);
  }

  /** Where the scan resumes after position `i` of `s`: past the match there, or at the next character. */
  function Resume(p: Pattern, s: string, i: nat): (k: nat)
    requires i < |s|
    ensures i < k <= |s|
  {
    match MatchAt(p, s, i)
    case Some(m) => i + m
    case None => i + 1
  }

  /**
   * `s` continues `y` from offset `o`, after a non-word character: the
   * matches at corresponding places are the same.
   */
  predicate Continues(s: string, y: string, o: nat) {
    && 0 < o && o + |y| == |s| && !IsWordChar(s[o - 1])
    && forall k {:trigger y[k]} :: 0 <= k < |y| ==> s[o + k] == y[k]
  }

  lemma ContinuesMatch(p: Pattern, s: string, y: string, o: nat, j: nat)
    requires Continues(s, y, o) && j <= |y|
    ensures MatchAt(p, s, o + j) == MatchAt(p, y, j)
  {
    match p
    case DigitWord(lo, hi) => DigitWordShift(lo, hi, s, y, o, j);
    case Phone => PhoneShift(s, y, o, j);
  }

  /** A match step of `s` and the text `y` it continues. */
  lemma ShiftSome(p: Pattern, rep: string, s: string, y: string, o: nat, j: nat, m: nat, r: nat)
    requires o + j < |s| && j < |y| && r == j + m
    requires MatchAt(p, y, j) == Some(m) && MatchAt(p, s, o + j) == Some(m)
    requires SubFrom(p, rep, s, o + r) == SubFrom(p, rep, y, r)
    ensures SubFrom(p, rep, s, o + j) == SubFrom(p, rep, y, j)
  {
    SubTakeAt(p, rep, s, o + j, m, o + r);
    SubTakeAt(p, rep, y, j, m, r);
  }

  /** `SubTake` with the resume index named by the caller. */
  lemma SubTakeAt(p: Pattern, rep: string, s: string, i: nat, m: nat, k: nat)
    requires i < |s| && MatchAt(p, s, i) == Some(m) && k == i + m
    ensures SubFrom(p, rep, s, i) == rep + SubFrom(p, rep, s, k)
  {
    SubTake(p, rep, s, i, m);
  }

  /** A copy step of `s` and the text `y` it continues. */
  lemma ShiftNone(p: Pattern, rep: string, s: string, y: string, o: nat, j: nat, r: nat)
    requires Continues(s, y, o) && j < |y| && MatchAt(p, y, j).None? && r == j + 1
    requires SubFrom(p, rep, s, o + r) == SubFrom(p, rep, y, r)
    ensures SubFrom(p, rep, s, o + j) == SubFrom(p, rep, y, j)
  {
    ContinuesMatch(p, s, y, o, j);
    assert s[o + j] == y[j];
    StepNone(p, rep, s, y, o + j, j);
  }

  /** One scan step of `s` and the text `y` it continues: they resume in step and agree from there on. */
  lemma ShiftStep(p: Pattern, rep: string, s: string, y: string, o: nat, j: nat, r: nat)
    requires Continues(s, y, o) && j < |y| && r == Resume(p, y, j)
    requires SubFrom(p, rep, s, o + r) == SubFrom(p, rep, y, r)
    ensures SubFrom(p, rep, s, o + j) == SubFrom(p, rep, y, j)
  {
    var mt := MatchAt(p, y, j);
    if mt.Some? {
      ContinuesMatch(p, s, y, o, j);
      ShiftSome(p, rep, s, y, o, j, mt.value, r);
    } else {
      ShiftNone(p, rep, s, y, o, j, r);
    }
  }

  /** From offset `o` on, the substitution of `s` is that of the text `y` it continues. */
  lemma {:induction false} SubShift(p: Pattern, rep: string, s: string, y: string, o: nat, j: nat)
    requires Continues(s, y, o) && j <= |y|
    ensures SubFrom(p, rep, s, o + j) == SubFrom(p, rep, y, j)
    decreases |y| - j
  {
    if j < |y| {
      SubShift(p, rep, s, y, o, Resume(p, y, j));
      ShiftStep(p, rep, s, y, o, j, Resume(p, y, j));
    } else {
      assert o + j == |s|;
    }
  }

  /** Right of a boundary at `b`, the substitution goes on as it would on `s[b + 1..]`. */
  lemma SubAfterBoundary(p: Pattern, rep: string, s: string, b: nat)
    requires b < |s| && IsBoundary(s[b])
    ensures SubFrom(p, rep, s, b + 1) == Sub(p, rep, s[b + 1..])
  {
    var y := s[b + 1..];
    assert Continues(s, y, b + 1);
    SubShift(p, rep, s, y, b + 1, 0);
  }

  /** `x` is the part of `s` before a boundary character. */
  predicate Prefixes(s: string, x: string) {
    && |x| < |s|
    && IsBoundary(s[|x|])
    && forall k {:trigger x[k]} :: 0 <= k < |x| ==> s[k] == x[k]
  }

  /** Left of a boundary, a match in `s` is a match in the part before it. */
  lemma MatchPrefix(p: Pattern, s: string, x: string, i: nat)
    requires Prefixes(s, x) && i < |x|
    ensures MatchAt(p, s, i) == MatchAt(p, x, i)
  {
    match p
    case DigitWord(lo, hi) => DigitWordPrefix(lo, hi, s, x, i);
    case Phone => PhonePrefix(s, x, i);
  }

  /** One match step of a text and its prefix, with a common remainder `tail`. */
  lemma PrefixSome(p: Pattern, rep: string, s: string, x: string, i: nat, m: nat, r: nat, tail: string)
    requires i < |x| < |s| && r == i + m
    requires MatchAt(p, s, i) == Some(m) && MatchAt(p, x, i) == Some(m)
    requires SubFrom(p, rep, s, r) == SubFrom(p, rep, x, r) + tail
    ensures SubFrom(p, rep, s, i) == SubFrom(p, rep, x, i) + tail
  {
    SubTakeAt(p, rep, s, i, m, r);
    SubTakeAt(p, rep, x, i, m, r);
  }

  /** One copy step of a text and its prefix, with a common remainder `tail`. */
  lemma PrefixNone(p: Pattern, rep: string, s: string, x: string, i: nat, tail: string)
    requires i < |x| && i < |s| && s[i] == x[i]
    requires MatchAt(p, s, i).None? && MatchAt(p, x, i).None?
    requires SubFrom(p, rep, s, i + 1) == SubFrom(p, rep, x, i + 1) + tail
    ensures SubFrom(p, rep, s, i) == SubFrom(p, rep, x, i) + tail
  {
    SubSkip(p, rep, s, i);
    SubSkip(p, rep, x, i);
  }

  /** One scan step left of a boundary: both texts resume at `r` and differ from there on by `tail`. */
  lemma BeforeStep(p: Pattern, rep: string, s: string, x: string, i: nat, r: nat, tail: string)
    requires Prefixes(s, x) && i < |x| && r == Resume(p, x, i)
    requires SubFrom(p, rep, s, r) == SubFrom(p, rep, x, r) + tail
    ensures SubFrom(p, rep, s, i) == SubFrom(p, rep, x, i) + tail
  {
    MatchPrefix(p, s, x, i);
    var mt := MatchAt(p, x, i);
    if mt.Some? {
      PrefixSome(p, rep, s, x, i, mt.value, r, tail);
    } else {
      assert s[i] == x[i];
      PrefixNone(p, rep, s, x, i, tail);
    }
  }

  /** Left of a boundary, the substitution goes on as it would on the part before it. */
  lemma {:induction false} SubBefore(p: Pattern, rep: string, s: string, x: string, i: nat)
    requires Prefixes(s, x) && i <= |x|
    ensures SubFrom(p, rep, s, i) == SubFrom(p, rep, x, i) + SubFrom(p, rep, s, |x|)
    decreases |x| - i
  {
    if i == |x| {
      assert SubFrom(p, rep, x, i) == [];
    } else {
      var r := Resume(p, x, i);
      SubBefore(p, rep, s, x, r);
      BeforeStep(p, rep, s, x, i, r, SubFrom(p, rep, s, |x|));
    }
  }

  /** Up to a boundary at `b`, the substitution of `s` is that of `s[..b]`. */
  lemma SubBeforeBoundary(p: Pattern, rep: string, s: string, b: nat)
    requires b < |s| && IsBoundary(s[b])
    ensures Sub(p, rep, s) == Sub(p, rep, s[..b]) + SubFrom(p, rep, s, b)
  {
    var x := s[..b];
    assert Prefixes(s, x);
    SubBefore(p, rep, s, x, 0);
  }

  /** Every pattern's substitution splits at a boundary character. */
  lemma SubSplitAt(p: Pattern, rep: string, s: string, b: nat)
    requires b < |s| && IsBoundary(s[b])
    ensures Sub(p, rep, s) == Sub(p, rep, s[..b]) + [s[b]] + Sub(p, rep, s[b + 1..])
  {
    SubAfterBoundary(p, rep, s, b);
    SubBeforeBoundary(p, rep, s, b);
    assert !IsDigit(s[b]);
    SubSkip(p, rep, s, b);
  }

  /** The same split, for a text given as its two parts and the boundary between them. */
  lemma SubSplit(p: Pattern, rep: string, x: string, c: char, y: string)
    requires IsBoundary(c)
    ensures Sub(p, rep, x + [c] + y) == Sub(p, rep, x) + [c] + Sub(p, rep, y)
  {
    var s := x + [c] + y;
    assert s[..|x|] == x && s[|x|] == c && s[|x| + 1..] == y;
    SubSplitAt(p, rep, s, |x|);
  }

  /** A text ending at a boundary: what follows is substituted on its own. */
  lemma SubSplitLeft(p: Pattern, rep: string, pre: string, rest: string)
    requires Bounded(pre, [])
    ensures Sub(p, rep, pre + rest) == Sub(p, rep, pre) + Sub(p, rep, rest)
    ensures pre != [] ==> Bounded(Sub(p, rep, pre), [])
  {
    if pre != [] {
      var x, c := pre[..|pre| - 1], pre[|pre| - 1];
      assert pre + rest == x + [c] + rest;
      assert pre == x + [c] + [];
      SubSplit(p, rep, x, c, rest);
      SubSplit(p, rep, x, c, []);
      assert Sub(p, rep, []) == [];
    } else {
      assert pre + rest == rest;
      assert Sub(p, rep, pre) == [];
    }
  }

  /** A text starting at a boundary is substituted on its own. */
  lemma SubSplitRight(p: Pattern, rep: string, w: string, post: string)
    requires Bounded([], post)
    ensures Sub(p, rep, w + post) == Sub(p, rep, w) + Sub(p, rep, post)
    ensures post != [] ==> Bounded([], Sub(p, rep, post))
  {
    if post != [] {
      var c, y := post[0], post[1..];
      assert w + post == w + [c] + y;
      assert post == [] + [c] + y;
      SubSplit(p, rep, w, c, y);
      SubSplit(p, rep, [], c, y);
      assert Sub(p, rep, []) == [];
    } else {
      assert w + post == w;
      assert Sub(p, rep, post) == [];
    }
  }

  /** Between boundaries, a word is substituted independently of the text around it. */
  lemma SubAround(p: Pattern, rep: string, pre: string, w: string, post: string)
    requires Bounded(pre, post)
    ensures Sub(p, rep, pre + w + post) == Sub(p, rep, pre) + Sub(p, rep, w) + Sub(p, rep, post)
    ensures Bounded(Sub(p, rep, pre), Sub(p, rep, post))
  {
    assert pre + w + post == pre + (w + post);
    SubSplitLeft(p, rep, pre, w + post);
    SubSplitRight(p, rep, w, post);
    if pre == [] {
      assert Sub(p, rep, pre) == [];
    }
    if post == [] {
      assert Sub(p, rep, post) == [];
    }
  }

  /**
   * Logging redacts a word between boundaries exactly as it redacts the word
   * alone, whatever digits the surrounding text holds.
   */
  lemma RedactedAround(pre: string, w: string, post: string)
    requires Bounded(pre, post)
    ensures Redacted(pre + w + post) == Redacted(pre) + Redacted(w) + Redacted(post)
  {
    var card, phone, id := DigitWord(13, 19), Phone, DigitWord(9, 9);
    SubAround(card, CardMarker, pre, w, post);
    var pre1, w1, post1 := Sub(card, CardMarker, pre), Sub(card, CardMarker, w), Sub(card, CardMarker, post);
    SubAround(phone, PhoneMarker, pre1, w1, post1);
    var pre2, w2, post2 := Sub(phone, PhoneMarker, pre1), Sub(phone, PhoneMarker, w1), Sub(phone, PhoneMarker, post1);
    SubAround(id, IdMarker, pre2, w2, post2);
  }

  /** A word alone is the word framed by two empty texts. */
  lemma Alone(w: string)
    ensures [] + w + [] == w
  {
  }

  /** Between boundaries, a digit word of allowed length is replaced by the marker, whatever surrounds it. */
  lemma DigitWordReplacedAround(lo: nat, hi: nat, rep: string, pre: string, word: string, post: string)
    requires 0 < lo <= |word| <= hi
    requires forall k :: 0 <= k < |word| ==> IsDigit(word[k])
    requires Bounded(pre, post)
    ensures Sub(DigitWord(lo, hi), rep, pre + word + post)
      == Sub(DigitWord(lo, hi), rep, pre) + rep + Sub(DigitWord(lo, hi), rep, post)
  {
    SubAround(DigitWord(lo, hi), rep, pre, word, post);
    DigitWordReplaced(lo, hi, rep, [], word, []);
    Alone(word);
    Alone(rep);
  }

  /** Between boundaries, a digit word of another length is left as it is, whatever surrounds it. */
  lemma DigitWordKeptAround(lo: nat, hi: nat, rep: string, pre: string, word: string, post: string)
    requires 0 < lo && !(lo <= |word| <= hi)
    requires forall k :: 0 <= k < |word| ==> IsDigit(word[k])
    requires Bounded(pre, post)
    ensures Sub(DigitWord(lo, hi), rep, pre + word + post)
      == Sub(DigitWord(lo, hi), rep, pre) + word + Sub(DigitWord(lo, hi), rep, post)
  {
    SubAround(DigitWord(lo, hi), rep, pre, word, post);
    DigitWordKept(lo, hi, rep, [], word, []);
    Alone(word);
  }

  /** Digits glued to a letter or `_` are kept, whatever lies beyond the boundaries around them. */
  lemma GluedDigitsKeptAround(lo: nat, hi: nat, rep: string, pre: string, g1: string, word: string, g2: string, post: string)
    requires 0 < lo && word != []
    requires forall k :: 0 <= k < |g1| ==> !IsDigit(g1[k])
    requires forall k :: 0 <= k < |g2| ==> !IsDigit(g2[k])
    requires forall k :: 0 <= k < |word| ==> IsDigit(word[k])
    requires (g1 != [] && IsWordChar(g1[|g1| - 1])) || (g2 != [] && IsWordChar(g2[0]))
    requires Bounded(pre, post)
    ensures Sub(DigitWord(lo, hi), rep, pre + (g1 + word + g2) + post)
      == Sub(DigitWord(lo, hi), rep, pre) + (g1 + word + g2) + Sub(DigitWord(lo, hi), rep, post)
  {
    SubAround(DigitWord(lo, hi), rep, pre, g1 + word + g2, post);
    GluedDigitsKept(lo, hi, rep, g1, word, g2);
  }

  /** A card-length digit word alone is logged as the card marker. */
  lemma CardAlone(word: string)
    requires 13 <= |word| <= 19 && forall k :: 0 <= k < |word| ==> IsDigit(word[k])
    ensures Redacted(word) == CardMarker
  {
    CardRedacted([], word, []);
    Alone(word);
    Alone(CardMarker);
  }

  /** Between boundaries, a 13-to-19-digit word is logged as the card marker, whatever surrounds it. */
  lemma CardRedactedAround(pre: string, word: string, post: string)
    requires 13 <= |word| <= 19 && forall k :: 0 <= k < |word| ==> IsDigit(word[k])
    requires Bounded(pre, post)
    ensures Redacted(pre + word + post) == Redacted(pre) + CardMarker + Redacted(post)
  {
    RedactedAround(pre, word, post);
    CardAlone(word);
  }

  /** A 9-digit word alone is logged as the identifier marker. */
  lemma IdAlone(word: string)
    requires |word| == 9 && forall k :: 0 <= k < |word| ==> IsDigit(word[k])
    ensures Redacted(word) == IdMarker
  {
    IdRedacted([], word, []);
    Alone(word);
    Alone(IdMarker);
  }

  /** Between boundaries, a 9-digit word is logged as the identifier marker, whatever surrounds it. */
  lemma IdRedactedAround(pre: string, word: string, post: string)
    requires |word| == 9 && forall k :: 0 <= k < |word| ==> IsDigit(word[k])
    requires Bounded(pre, post)
    ensures Redacted(pre + word + post) == Redacted(pre) + IdMarker + Redacted(post)
  {
    RedactedAround(pre, word, post);
    IdAlone(word);
  }

  /** A digit word of any other length alone is logged as it is. */
  lemma OtherAlone(word: string)
    requires |word| != 9 && !(13 <= |word| <= 19) && forall k :: 0 <= k < |word| ==> IsDigit(word[k])
    ensures Redacted(word) == word
  {
    OtherDigitWordKept([], word, []);
    Alone(word);
  }

  /** Between boundaries, a digit word of any other length is logged as it is, whatever surrounds it. */
  lemma OtherDigitWordKeptAround(pre: string, word: string, post: string)
    requires |word| != 9 && !(13 <= |word| <= 19) && forall k :: 0 <= k < |word| ==> IsDigit(word[k])
    requires Bounded(pre, post)
    ensures Redacted(pre + word + post) == Redacted(pre) + word + Redacted(post)
  {
    RedactedAround(pre, word, post);
    OtherAlone(word);
  }

  /** A phone-shaped word alone is logged as the phone marker. */
  lemma PhoneAlone(ph: string)
    requires PhoneShaped(ph)
    ensures Redacted(ph) == PhoneMarker
  {
    PhoneRedacted([], ph, []);
    Alone(ph);
    Alone(PhoneMarker);
  }

  /** Between boundaries, a phone-shaped word is logged as the phone marker, whatever surrounds it. */
  lemma PhoneRedactedAround(pre: string, ph: string, post: string)
    requires PhoneShaped(ph) && Bounded(pre, post)
    ensures Redacted(pre + ph + post) == Redacted(pre) + PhoneMarker + Redacted(post)
  {
    RedactedAround(pre, ph, post);
    PhoneAlone(ph);
  }
}
