/**
 * String helpers of the .NET base library that the modelled code calls,
 * restricted to what the model needs: ASCII case mapping (the culture-sensitive
 * `ToLower`/`ToUpper` are modelled on ASCII letters only), `char.IsWhiteSpace`,
 * `string.IsNullOrWhiteSpace`, an ordinal `StartsWith`, `Replace(pattern, "")`
 * and decimal rendering of naturals.
 */
module Text {
  import opened Wrappers

  predicate IsAsciiUpper(c: char) {
    'A' <= c <= 'Z'
  }

  predicate IsAsciiLower(c: char) {
    'a' <= c <= 'z'
  }

  function LowerChar(c: char): char {
    if IsAsciiUpper(c) then (c as int - 'A' as int + 'a' as int) as char else c
  }

  function UpperChar(c: char): char {
    if IsAsciiLower(c) then (c as int - 'a' as int + 'A' as int) as char else c
  }

  /** `ToLower()` / `ToLowerInvariant()` on ASCII letters. */
  function Lower(s: string): (r: string)
    ensures |r| == |s|
  {
    seq(|s|, i requires 0 <= i < |s| => LowerChar(s[i]))
  }

  /** `ToUpper()` on ASCII letters. */
  function Upper(s: string): (r: string)
    ensures |r| == |s|
  {
    seq(|s|, i requires 0 <= i < |s| => UpperChar(s[i]))
  }

  /** No ASCII capital letter occurs in `s`. */
  predicate NoUpper(s: string) {
    forall i :: 0 <= i < |s| ==> !IsAsciiUpper(s[i])
  }

  lemma LowerHasNoUpper(s: string)
    ensures NoUpper(Lower(s))
  {
  }

  /** Equality ignoring ASCII case, the model of a case-insensitive comparer. */
  predicate CaseInsensitiveEqual(a: string, b: string) {
    Lower(a) == Lower(b)
  }

  /**
   * `StringComparer.InvariantCultureIgnoreCase.Compare(x, y) == 0` on values
   * that may be null: two nulls are equal, a null never equals a string.
   */
  predicate OptionCaseInsensitiveEqual(a: Option<string>, b: Option<string>) {
    match (a, b)
    case (None, None) => true
    case (Some(x), Some(y)) => CaseInsensitiveEqual(x, y)
    case _ => false
  }

  /** `char.IsWhiteSpace`: the Unicode space separators, line and paragraph separators, and the controls U+0009..U+000D and U+0085. */
  predicate IsWhiteSpace(c: char) {
    || c == ' '
    || ('\t' <= c <= '\r')
    || c == '\U{0085}'
    || c == '\U{00A0}'
    || c == '\U{1680}'
    || ('\U{2000}' <= c <= '\U{200A}')
    || c == '\U{2028}'
    || c == '\U{2029}'
    || c == '\U{202F}'
    || c == '\U{205F}'
    || c == '\U{3000}'
  }

  /** `string.IsNullOrWhiteSpace`: null, empty, or white space only. */
  predicate IsNullOrWhiteSpace(s: Option<string>) {
    match s
    case None => true
    case Some(t) => forall i :: 0 <= i < |t| ==> IsWhiteSpace(t[i])
  }

  /** An ordinal `StartsWith`. */
  predicate StartsWith(s: string, prefix: string) {
    |prefix| <= |s| && s[..|prefix|] == prefix
  }

  /** `pattern` occurs in `s` starting at index `i`. */
  predicate OccursAt(s: string, pattern: string, i: int) {
    0 <= i && i + |pattern| <= |s| && s[i..i + |pattern|] == pattern
  }

  predicate Occurs(s: string, pattern: string) {
    exists i | 0 <= i <= |s| :: OccursAt(s, pattern, i)
  }

  /**
   * `s.Replace(pattern, "")`: one ordinal left-to-right scan that drops every
   * non-overlapping occurrence of `pattern`; text that a removal brings together
   * is not scanned again.
   */
  function RemoveAll(s: string, pattern: string): (r: string)
    requires |pattern| > 0
    ensures |r| <= |s|
    ensures forall c :: c in r ==> c in s
    decreases |s|
  {
    if |s| < |pattern| then s
    else if s[..|pattern|] == pattern then RemoveAll(s[|pattern|..], pattern)
    else [s[0]] + RemoveAll(s[1..], pattern)
  }

  /** An occurrence in the tail of `s` is an occurrence in `s`, one place further on. */
  lemma OccursInTail(s: string, pattern: string, i: int)
    requires |s| > 0
    requires OccursAt(s[1..], pattern, i)
    ensures OccursAt(s, pattern, i + 1)
  {
    assert s[i + 1..i + 1 + |pattern|] == s[1..][i..i + |pattern|];
  }

  /** Whenever the pattern occurs, the replacement removes something. */
  lemma {:induction false} RemoveAllShrinks(s: string, pattern: string)
    requires |pattern| > 0
    requires Occurs(s, pattern)
    ensures |RemoveAll(s, pattern)| < |s|
    decreases |s|
  {
    var i :| 0 <= i <= |s| && OccursAt(s, pattern, i);
    assert 0 <= i && i + |pattern| <= |s| && s[i..i + |pattern|] == pattern;
    if s[..|pattern|] == pattern {
    } else {
      assert i != 0;
      assert s[1..][i - 1..i - 1 + |pattern|] == s[i..i + |pattern|];
      assert OccursAt(s[1..], pattern, i - 1);
      RemoveAllShrinks(s[1..], pattern);
    }
  }

  /** Without an occurrence of the pattern, the replacement leaves the text alone. */
  lemma {:induction false} RemoveAllWithoutOccurrence(s: string, pattern: string)
    requires |pattern| > 0
    requires !Occurs(s, pattern)
    ensures RemoveAll(s, pattern) == s
    decreases |s|
  {
    if |s| < |pattern| {
    } else {
      assert !OccursAt(s, pattern, 0);
      assert s[..|pattern|] != pattern;
      forall i | OccursAt(s[1..], pattern, i)
        ensures false
      {
        OccursInTail(s, pattern, i);
      }
      RemoveAllWithoutOccurrence(s[1..], pattern);
      assert s == [s[0]] + s[1..];
    }
  }

  /** A prefix in which no occurrence of the pattern starts is kept as it is. */
  lemma {:induction false} RemoveAllKeepsPrefix(a: string, t: string, pattern: string)
    requires |pattern| > 0
    requires forall i :: 0 <= i < |a| ==> !OccursAt(a + t, pattern, i)
    ensures RemoveAll(a + t, pattern) == a + RemoveAll(t, pattern)
    decreases |a|
  {
    var s := a + t;
    if a == [] {
      assert s == t;
    } else if |s| < |pattern| {
      assert RemoveAll(t, pattern) == t;
    } else {
      assert !OccursAt(s, pattern, 0);
      assert s[1..] == a[1..] + t;
      forall i | 0 <= i < |a[1..]|
        ensures !OccursAt(a[1..] + t, pattern, i)
      {
        if OccursAt(a[1..] + t, pattern, i) {
          OccursInTail(s, pattern, i);
        }
      }
      RemoveAllKeepsPrefix(a[1..], t, pattern);
      assert a == [a[0]] + a[1..];
    }
  }

  /** One differing character rules out an occurrence at `i`. */
  lemma MismatchAt(s: string, pattern: string, i: int, k: int)
    requires 0 <= i && 0 <= k < |pattern| && i + k < |s|
    requires s[i + k] != pattern[k]
    ensures !OccursAt(s, pattern, i)
  {
  }

  /** Removing text introduces no capital letter. */
  lemma RemoveAllKeepsNoUpper(s: string, pattern: string)
    requires |pattern| > 0
    requires NoUpper(s)
    ensures NoUpper(RemoveAll(s, pattern))
  {
    var r := RemoveAll(s, pattern);
    forall i | 0 <= i < |r|
      ensures !IsAsciiUpper(r[i])
    {
      assert r[i] in r;
    }
  }

  /** The replacement changes the text exactly when the pattern occurs in it. */
  lemma RemoveAllIsIdentityIff(s: string, pattern: string)
    requires |pattern| > 0
    ensures RemoveAll(s, pattern) == s <==> !Occurs(s, pattern)
  {
    if Occurs(s, pattern) {
      RemoveAllShrinks(s, pattern);
    } else {
      RemoveAllWithoutOccurrence(s, pattern);
    }
  }

  predicate IsDigit(c: char) {
    '0' <= c <= '9'
  }

  predicate AllDigits(s: string) {
    forall i :: 0 <= i < |s| ==> IsDigit(s[i])
  }

  function DigitChar(d: nat): (c: char)
    requires d < 10
    ensures IsDigit(c)
  {
    ('0' as int + d) as char
  }

  function DigitOf(c: char): (d: nat)
    requires IsDigit(c)
    ensures d < 10
  {
    c as int - '0' as int
  }

  /** The decimal digits of `s` read as a natural number. */
  function DigitsValue(s: string): nat
    requires AllDigits(s)
  {
    if |s| == 0 then 0 else DigitsValue(s[..|s| - 1]) * 10 + DigitOf(s[|s| - 1])
  }

  /** `n.ToString()` for a natural number: its shortest decimal rendering. */
  function NatToString(n: nat): (r: string)
    ensures |r| >= 1 && AllDigits(r)
    ensures |r| > 1 ==> r[0] != '0'
  {
    if n < 10 then [DigitChar(n)] else NatToString(n / 10) + [DigitChar(n % 10)]
  }

  /** Reading back the rendering of `n` gives `n`. */
  lemma {:induction false} NatToStringRoundTrip(n: nat)
    ensures DigitsValue(NatToString(n)) == n
  {
    if n >= 10 {
      var s := NatToString(n);
      assert s[..|s| - 1] == NatToString(n / 10);
      NatToStringRoundTrip(n / 10);
    }
  }

  /** `n.ToString()` for any integer. */
  function IntToString(n: int): string {
    if n < 0 then "-" + NatToString(-n) else NatToString(n)
  }
}
