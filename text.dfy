/**
 * The string primitives Program.cs relies on: `string.IsNullOrWhiteSpace`,
 * `string.Contains(..., StringComparison.OrdinalIgnoreCase)` and the regular
 * expression `(?<code>[0-9]{6})` (its `IsMatch` and `Match(...).Groups["code"].Value`).
 */
module Text {
  import opened Wrappers

  /** Number of digits in a verification code: the `{6}` of the regex. */
  const CodeLength: nat := 6

  /** `char.IsWhiteSpace`: Unicode space, line and paragraph separators, U+0009..U+000D and U+0085. */
  predicate IsWhiteSpace(c: char) {
    || c == ' '
    || ('\t' <= c <= '\r')
    || c == '\U{0085}'
    || c == '\U{00A0}'
    || c == '\U{1680}'
    || ('\U{2000}' <= c <= '\U{200A}')
    || c == '\U{2028}'
    || c == '\U{2029}'
    || c == '\U{202F}'
    || c == '\U{205F}'
    || c == '\U{3000}'
  }

  /** `string.IsNullOrWhiteSpace`: null, empty, or white space only. */
  predicate IsNullOrWhiteSpace(s: Option<string>) {
    s.None? || forall i | 0 <= i < |s.value| :: IsWhiteSpace(s.value[i])
  }

  /** Ordinal upper-casing, restricted to ASCII letters. */
  function ToUpperAscii(c: char): char {
    if 'a' <= c <= 'z' then (c as int - 32) as char else c
  }

  /** `pattern` occurs in `s` at index `i` when characters are compared after upper-casing. */
  predicate MatchesAtIgnoreCase(s: string, pattern: string, i: nat) {
    && i + |pattern| <= |s|
    && forall j | 0 <= j < |pattern| :: ToUpperAscii(s[i + j]) == ToUpperAscii(pattern[j])
  }

  /** Leftmost index at or after `from` where `pattern` occurs in `s`, ignoring case. */
  function IndexOfIgnoreCase(s: string, pattern: string, from: nat): (r: Option<nat>)
    ensures r.Some? ==> from <= r.value && MatchesAtIgnoreCase(s, pattern, r.value)
    ensures r.Some? ==> forall k | from <= k < r.value :: !MatchesAtIgnoreCase(s, pattern, k)
    ensures r.None? ==> forall k: nat | from <= k :: !MatchesAtIgnoreCase(s, pattern, k)
    decreases |s| - from
  {
    if from + |pattern| > |s| then None
    else if MatchesAtIgnoreCase(s, pattern, from) then Some(from)
    else IndexOfIgnoreCase(s, pattern, from + 1)
  }

  /** `s.Contains(pattern, StringComparison.OrdinalIgnoreCase)`. */
  predicate ContainsIgnoreCase(s: string, pattern: string) {
    IndexOfIgnoreCase(s, pattern, 0).Some?
  }

  /** The search finds an occurrence exactly when there is one. */
  lemma ContainsIgnoreCaseSpec(s: string, pattern: string)
    ensures ContainsIgnoreCase(s, pattern) <==> exists k: nat :: MatchesAtIgnoreCase(s, pattern, k)
  {
    var r := IndexOfIgnoreCase(s, pattern, 0);
    if r.Some? {
      assert MatchesAtIgnoreCase(s, pattern, r.value);
    }
  }

  /** The character class `[0-9]`: ASCII digits only. */
  predicate IsAsciiDigit(c: char) {
    '0' <= c <= '9'
  }

  /** The regex `[0-9]{6}` matches `s` at index `i`. */
  predicate DigitRunAt(s: string, i: nat) {
    && i + CodeLength <= |s|
    && forall j | i <= j < i + CodeLength :: IsAsciiDigit(s[j])
  }

  /** The regex engine's scan: the leftmost start index at or after `from` where six digits begin. */
  function FindDigitRun(s: string, from: nat): (r: Option<nat>)
    ensures r.Some? ==> from <= r.value && DigitRunAt(s, r.value)
    ensures r.Some? ==> forall k | from <= k < r.value :: !DigitRunAt(s, k)
    ensures r.None? ==> forall k: nat | from <= k :: !DigitRunAt(s, k)
    decreases |s| - from
  {
    if from + CodeLength > |s| then None
    else if DigitRunAt(s, from) then Some(from)
    else FindDigitRun(s, from + 1)
  }

  /** `regex.IsMatch(s)`. */
  predicate HasDigitRun(s: string) {
    FindDigitRun(s, 0).Some?
  }

  /**
   * `regex.Match(s).Groups["code"].Value`: the six characters of the leftmost
   * match, or the empty string when the match fails.
   */
  function CodeMatch(s: string): string {
    match FindDigitRun(s, 0)
    case Some(i) => s[i..i + CodeLength]
    case None => ""
  }

  /**
   * The extracted code is empty exactly when the regex does not match, and
   * otherwise it is six ASCII digits: the slice of `s` at the leftmost index
   * where six digits begin.
   */
  lemma CodeMatchSpec(s: string)
    ensures HasDigitRun(s) <==> CodeMatch(s) != ""
    ensures HasDigitRun(s) ==>
      var code := CodeMatch(s);
      |code| == CodeLength && forall j | 0 <= j < |code| :: IsAsciiDigit(code[j])
    ensures HasDigitRun(s) ==> exists i: nat ::
      && DigitRunAt(s, i)
      && CodeMatch(s) == s[i..i + CodeLength]
      && forall k | 0 <= k < i :: !DigitRunAt(s, k)
  {
    if HasDigitRun(s) {
      var i := FindDigitRun(s, 0).value;
      assert DigitRunAt(s, i);
    }
  }

  /** The code extracted from a seven-digit run is its first six digits. */
  lemma LongRunExample()
    ensures CodeMatch("1234567") == "123456"
  {
    var s := "1234567";
    assert DigitRunAt(s, 0);
    assert FindDigitRun(s, 0) == Some(0);
    assert s[0..6] == "123456";
  }

  /** A run of five digits before a run of six is skipped. */
  lemma ShortRunSkippedExample()
    ensures CodeMatch("ab12345x678901") == "678901"
  {
    var t := "ab12345x678901";
    assert t[7] == 'x';
    forall k | 0 <= k < 8 ensures !DigitRunAt(t, k) {
      if k < 2 { assert !IsAsciiDigit(t[k]); } else { assert !IsAsciiDigit(t[7]); }
    }
    assert DigitRunAt(t, 8);
    FindDigitRunSkips(t, 0, 8);
    assert t[8..14] == "678901";
  }

  /** Scanning from `from` skips indexes without a run and stops at the first one with a run. */
  lemma {:induction false} FindDigitRunSkips(s: string, from: nat, i: nat)
    requires from <= i && DigitRunAt(s, i)
    requires forall k | from <= k < i :: !DigitRunAt(s, k)
    ensures FindDigitRun(s, from) == Some(i)
    decreases i - from
  {
    if from < i {
      FindDigitRunSkips(s, from + 1, i);
    }
  }
}
