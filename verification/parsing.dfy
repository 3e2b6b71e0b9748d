/**
 * The .NET `TryParse` routines the property accessors call.
 *
 * `int.TryParse` (NumberStyles.Integer, invariant signs): optional white space,
 * an optional '+' or '-', one or more ASCII digits, optional white space, and a
 * value inside the 32-bit signed range. `bool.TryParse`: "true" or "false" in
 * any ASCII case after trimming white space and NUL characters.
 * `DateTime.TryParse` is culture-dependent and is left to a parser supplied by
 * the caller.
 */
module Parsing {
  import opened Wrappers
  import opened Text

  const Int32Min: int := -0x8000_0000
  const Int32Max: int := 0x7FFF_FFFF

  predicate InInt32(n: int) {
    Int32Min <= n <= Int32Max
  }

  /** The white space the integer parser skips around a number. */
  predicate IsNumberWhite(c: char) {
    c == ' ' || '\t' <= c <= '\r'
  }

  /** The characters `bool.TryParse` trims. */
  predicate IsBooleanTrim(c: char) {
    IsWhiteSpace(c) || c == '\0'
  }

  /** The first index from `i` on whose character is not `white`, or `|s|`. */
  function SkipForward(s: string, i: nat, white: char -> bool): (r: nat)
    requires i <= |s|
    ensures i <= r <= |s|
    ensures forall m :: i <= m < r ==> white(s[m])
    ensures r < |s| ==> !white(s[r])
    decreases |s| - i
  {
    if i < |s| && white(s[i]) then SkipForward(s, i + 1, white) else i
  }

  /** The end of `s[i..j]` once its trailing `white` characters are dropped. */
  function SkipBackward(s: string, i: nat, j: nat, white: char -> bool): (r: nat)
    requires i <= j <= |s|
    ensures i <= r <= j
    ensures forall m :: r <= m < j ==> white(s[m])
    ensures r > i ==> !white(s[r - 1])
    decreases j - i
  {
    if j > i && white(s[j - 1]) then SkipBackward(s, i, j - 1, white) else j
  }

  /** `s` without its leading and trailing characters satisfying `white`. */
  function Trim(s: string, white: char -> bool): (r: string)
    ensures |r| <= |s|
    ensures |r| > 0 ==> !white(r[0]) && !white(r[|r| - 1])
  {
    var i := SkipForward(s, 0, white);
    s[i..SkipBackward(s, i, |s|, white)]
  }

  /** `int.TryParse(s, out v)`: Some(v) on success, None on failure. */
  function ParseInt32(s: string): (r: Option<int>)
    ensures r.Some? ==> InInt32(r.value)
  {
    ReadSignedDigits(Trim(s, IsNumberWhite))
  }

  /** The trimmed text read as an optional sign and one or more digits, kept when inside the 32-bit range. */
  function ReadSignedDigits(t: string): (r: Option<int>)
    ensures r.Some? ==> InInt32(r.value)
  {
    var signed := |t| > 0 && (t[0] == '-' || t[0] == '+');
    var digits := if signed then t[1..] else t;
    if |digits| == 0 || !AllDigits(digits) then None
    else
      var magnitude: int := DigitsValue(digits);
      var n := if |t| > 0 && t[0] == '-' then -magnitude else magnitude;
      if InInt32(n) then Some(n) else None
  }

  /** Text starting and ending with a character that is not white is left alone by trimming. */
  lemma TrimUnchanged(s: string, white: char -> bool)
    requires |s| > 0 && !white(s[0]) && !white(s[|s| - 1])
    ensures Trim(s, white) == s
  {
  }

  /** Every 32-bit integer parses back from its decimal rendering. */
  lemma ParseInt32RoundTrip(n: int)
    requires InInt32(n)
    ensures ParseInt32(IntToString(n)) == Some(n)
  {
    var s := IntToString(n);
    if n < 0 {
      NatToStringRoundTrip(-n);
      assert s[1..] == NatToString(-n);
    } else {
      NatToStringRoundTrip(n);
    }
    TrimUnchanged(s, IsNumberWhite);
  }

  /** Nothing but white space is not a number. */
  lemma ParseInt32RejectsBlank(s: string)
    requires forall i :: 0 <= i < |s| ==> IsNumberWhite(s[i])
    ensures ParseInt32(s) == None
  {
    assert SkipForward(s, 0, IsNumberWhite) == |s|;
  }

  /** Text made of the white space the integer parser skips. */
  predicate AllNumberWhite(w: string) {
    forall i :: 0 <= i < |w| ==> IsNumberWhite(w[i])
  }

  /** The optional sign before the digits. */
  predicate IsSign(t: string) {
    t == "" || t == "+" || t == "-"
  }

  /**
   * The shape `int.TryParse` accepts, cut at `i`, `k` and `j`: white space
   * `s[..i]`, a sign `s[i..k]`, one or more digits `s[k..j]`, white space `s[j..]`.
   */
  predicate Decomposes(s: string, i: nat, k: nat, j: nat) {
    && i <= k < j <= |s|
    && AllNumberWhite(s[..i])
    && IsSign(s[i..k])
    && AllDigits(s[k..j])
    && AllNumberWhite(s[j..])
  }

  /** The value a sign and digits denote; leading zeros add nothing. */
  function SignedValue(sign: string, digits: string): int
    requires AllDigits(digits)
  {
    var magnitude: int := DigitsValue(digits);
    if sign == "-" then -magnitude else magnitude
  }

  /** A forward scan stops at the first character that is not white. */
  lemma {:induction false} SkipForwardStops(s: string, i: nat, n: nat, white: char -> bool)
    requires i <= n <= |s|
    requires forall m :: i <= m < n ==> white(s[m])
    requires n < |s| ==> !white(s[n])
    ensures SkipForward(s, i, white) == n
    decreases n - i
  {
    if i < n {
      SkipForwardStops(s, i + 1, n, white);
    }
  }

  /** A backward scan stops after the last character that is not white. */
  lemma {:induction false} SkipBackwardStops(s: string, i: nat, j: nat, n: nat, white: char -> bool)
    requires i <= n <= j <= |s|
    requires forall m :: n <= m < j ==> white(s[m])
    requires n > i ==> !white(s[n - 1])
    ensures SkipBackward(s, i, j, white) == n
    decreases j - n
  {
    if n < j {
      SkipBackwardStops(s, i, j - 1, n, white);
    }
  }

  /**
   * Text of the accepted shape parses to the value its sign and digits denote
   * — whatever the surrounding white space and leading zeros — when that
   * value fits in 32 bits, and fails otherwise.
   */
  lemma ParseInt32Reads(s: string, i: nat, k: nat, j: nat)
    requires Decomposes(s, i, k, j)
    ensures var v := SignedValue(s[i..k], s[k..j]);
            ParseInt32(s) == if InInt32(v) then Some(v) else None
  {
    TrimOfShape(s, i, k, j);
    ReadsSignAndDigits(s[i..j], s[i..k], s[k..j]);
  }

  /** Trimming text of the accepted shape leaves the sign and the digits. */
  lemma TrimOfShape(s: string, i: nat, k: nat, j: nat)
    requires Decomposes(s, i, k, j)
    ensures Trim(s, IsNumberWhite) == s[i..j]
  {
    var sign, digits := s[i..k], s[k..j];
    assert s[i] == if k > i then sign[0] else digits[0];
    assert s[j - 1] == digits[|digits| - 1];
    TrimAround(s, i, j);
  }

  /** Trimming white space off both ends of a slice that starts and ends with other characters. */
  lemma TrimAround(s: string, i: nat, j: nat)
    requires i < j <= |s| && AllNumberWhite(s[..i]) && AllNumberWhite(s[j..])
    requires !IsNumberWhite(s[i]) && !IsNumberWhite(s[j - 1])
    ensures Trim(s, IsNumberWhite) == s[i..j]
  {
    forall m | 0 <= m < i
      ensures IsNumberWhite(s[m])
    {
      assert s[..i][m] == s[m];
    }
    SkipForwardStops(s, 0, i, IsNumberWhite);
    forall m | j <= m < |s|
      ensures IsNumberWhite(s[m])
    {
      assert s[j..][m - j] == s[m];
    }
    SkipBackwardStops(s, i, |s|, j, IsNumberWhite);
  }

  /** A sign followed by one or more digits reads as the value they denote. */
  lemma ReadsSignAndDigits(t: string, sign: string, digits: string)
    requires IsSign(sign) && |digits| > 0 && AllDigits(digits) && t == sign + digits
    ensures var v := SignedValue(sign, digits);
            ReadSignedDigits(t) == if InInt32(v) then Some(v) else None
  {
    if sign == "" {
      assert t == digits;
      assert t[0] == digits[0];
    } else {
      assert t[0] == sign[0];
      assert t[1..] == digits;
    }
  }

  /** Trimming keeps a middle slice of the text, with only white space around it. */
  lemma TrimIsSlice(s: string)
    ensures var i := SkipForward(s, 0, IsNumberWhite);
            var j := SkipBackward(s, i, |s|, IsNumberWhite);
            && Trim(s, IsNumberWhite) == s[i..j]
            && AllNumberWhite(s[..i])
            && AllNumberWhite(s[j..])
  {
    LeadingWhite(s);
    TrailingWhite(s);
  }

  lemma LeadingWhite(s: string)
    ensures AllNumberWhite(s[..SkipForward(s, 0, IsNumberWhite)])
  {
    var i := SkipForward(s, 0, IsNumberWhite);
    WhiteBetween(s, 0, i);
    assert s[0..i] == s[..i];
  }

  lemma TrailingWhite(s: string)
    ensures var i := SkipForward(s, 0, IsNumberWhite);
            AllNumberWhite(s[SkipBackward(s, i, |s|, IsNumberWhite)..])
  {
    var i := SkipForward(s, 0, IsNumberWhite);
    var j := SkipBackward(s, i, |s|, IsNumberWhite);
    WhiteBetween(s, j, |s|);
    assert s[j..|s|] == s[j..];
  }

  /** White characters at each index of a range make the slice white space. */
  lemma WhiteBetween(s: string, i: nat, j: nat)
    requires i <= j <= |s| && forall m :: i <= m < j ==> IsNumberWhite(s[m])
    ensures AllNumberWhite(s[i..j])
  {
    var w := s[i..j];
    forall m | 0 <= m < |w|
      ensures IsNumberWhite(w[m])
    {
      assert w[m] == s[i + m];
    }
  }

  /** Conversely, whatever parses has the accepted shape and denotes the value parsed. */
  lemma ParseInt32Decomposes(s: string)
    requires ParseInt32(s).Some?
    ensures exists i: nat, k: nat, j: nat :: Decomposes(s, i, k, j) && ParseInt32(s) == Some(SignedValue(s[i..k], s[k..j]))
  {
    TrimIsSlice(s);
    var t := Trim(s, IsNumberWhite);
    var i := SkipForward(s, 0, IsNumberWhite);
    var j := SkipBackward(s, i, |s|, IsNumberWhite);
    assert t == s[i..j];
    assert ParseInt32(s) == ReadSignedDigits(t);
    var m := ReadSplits(t);
    var k := i + m;
    SliceOfSlice(s, i, j, m);
    assert s[i..k] == t[..m] && s[k..j] == t[m..];
    assert Decomposes(s, i, k, j);
    assert ParseInt32(s) == Some(SignedValue(s[i..k], s[k..j]));
  }

  /** What reads as a number is a sign of length `m` followed by one or more digits. */
  lemma ReadSplits(t: string) returns (m: nat)
    requires ReadSignedDigits(t).Some?
    ensures m < |t| && IsSign(t[..m]) && AllDigits(t[m..])
    ensures ReadSignedDigits(t) == Some(SignedValue(t[..m], t[m..]))
  {
    if t[0] == '-' || t[0] == '+' {
      m := 1;
      assert t[..1] == [t[0]];
    } else {
      m := 0;
      assert t[..0] == "" && t[0..] == t;
    }
  }

  lemma SliceOfSlice(s: string, i: nat, j: nat, m: nat)
    requires i + m <= j <= |s|
    ensures s[i..j][..m] == s[i..i + m] && s[i..j][m..] == s[i + m..j]
  {
  }

  /** Every character of text of the accepted shape is white space, a sign or a digit. */
  lemma ShapeCharacters(s: string, i: nat, k: nat, j: nat, p: nat)
    requires Decomposes(s, i, k, j) && p < |s|
    ensures IsNumberWhite(s[p]) || IsDigit(s[p]) || s[p] == '+' || s[p] == '-'
  {
    if p < i {
      assert s[..i][p] == s[p];
    } else if p < k {
      assert s[i..k][p - i] == s[p];
    } else if p < j {
      assert s[k..j][p - k] == s[p];
    } else {
      assert s[j..][p - j] == s[p];
    }
  }

  /** A character that is neither white space, a sign nor a digit makes the parse fail. */
  lemma ParseInt32RejectsStrayCharacter(s: string, p: nat)
    requires p < |s| && !IsNumberWhite(s[p]) && !IsDigit(s[p]) && s[p] != '+' && s[p] != '-'
    ensures ParseInt32(s) == None
  {
    if ParseInt32(s).Some? {
      ParseInt32Decomposes(s);
      var i: nat, k: nat, j: nat :| Decomposes(s, i, k, j);
      ShapeCharacters(s, i, k, j, p);
    }
  }

  /** White space, a sign and leading zeros around a number. */
  lemma ParseInt32SkipsPadding()
    ensures ParseInt32(" " + "-007" + "\n") == Some(-7)
  {
    var s := " " + "-007" + "\n";
    assert s[..1] == " " && s[1..2] == "-" && s[5..] == "\n";
    assert s[2..5] == "007";
    assert DigitsValue("007") == 7 by {
      assert "007"[..2] == "00" && "00"[..1] == "0" && "0"[..0] == "";
    }
    ParseInt32Reads(s, 1, 2, 5);
  }

  /** One past the 32-bit range does not parse, however it is written. */
  lemma ParseInt32RejectsOverflow(s: string, i: nat, k: nat, j: nat)
    requires Decomposes(s, i, k, j)
    requires DigitsValue(s[k..j]) > Int32Max + 1 || (DigitsValue(s[k..j]) == Int32Max + 1 && s[i..k] != "-")
    ensures ParseInt32(s) == None
  {
    ParseInt32Reads(s, i, k, j);
  }

  /**
   * `bool.TryParse(s, out v)`: Some(v) on success, None on failure. It
   * succeeds exactly when the trimmed text is a rendering of a boolean in
   * some case, and then yields that boolean.
   */
  function ParseBoolean(s: string): (r: Option<bool>)
    ensures r.Some? <==> exists b :: CaseInsensitiveEqual(Trim(s, IsBooleanTrim), BooleanToString(b))
    ensures r.Some? ==> CaseInsensitiveEqual(Trim(s, IsBooleanTrim), BooleanToString(r.value))
  {
    BooleanRenderingsLowered();
    var t := Lower(Trim(s, IsBooleanTrim));
    if t == "true" then Some(true)
    else if t == "false" then Some(false)
    else None
  }

  /** `bool.ToString()`. */
  function BooleanToString(b: bool): string {
    if b then "True" else "False"
  }

  /** Both boolean renderings parse back to their value. */
  lemma ParseBooleanRoundTrip(b: bool)
    ensures ParseBoolean(BooleanToString(b)) == Some(b)
  {
    var s := BooleanToString(b);
    TrimUnchanged(s, IsBooleanTrim);
    var t := Lower(s);
    if b {
      assert t[0] == 't' && t[1] == 'r' && t[2] == 'u' && t[3] == 'e';
      assert t == "true";
    } else {
      assert t[0] == 'f' && t[1] == 'a' && t[2] == 'l' && t[3] == 's' && t[4] == 'e';
      assert t == "false";
    }
  }

  /** Text made of the characters `bool.TryParse` trims. */
  predicate AllBooleanTrim(w: string) {
    forall i :: 0 <= i < |w| ==> IsBooleanTrim(w[i])
  }

  /**
   * The shape `bool.TryParse` accepts for `b`, cut at `i` and `j`: trimmed
   * characters `s[..i]`, the rendering of `b` in any ASCII case `s[i..j]`,
   * trimmed characters `s[j..]`.
   */
  predicate BooleanShape(s: string, i: nat, j: nat, b: bool) {
    && i <= j <= |s|
    && AllBooleanTrim(s[..i])
    && CaseInsensitiveEqual(s[i..j], BooleanToString(b))
    && AllBooleanTrim(s[j..])
  }

  /** The lower-case forms the parser compares against. */
  lemma BooleanRenderingsLowered()
    ensures Lower(BooleanToString(true)) == "true"
    ensures Lower(BooleanToString(false)) == "false"
  {
    var t, f := Lower("True"), Lower("False");
    assert t[0] == 't' && t[1] == 'r' && t[2] == 'u' && t[3] == 'e';
    assert f[0] == 'f' && f[1] == 'a' && f[2] == 'l' && f[3] == 's' && f[4] == 'e';
  }

  /** Trimming removes exactly the `white` characters around a slice that starts and ends with other characters. */
  lemma TrimBetween(s: string, i: nat, j: nat, white: char -> bool)
    requires i < j <= |s|
    requires forall m :: 0 <= m < i ==> white(s[m])
    requires forall m :: j <= m < |s| ==> white(s[m])
    requires !white(s[i]) && !white(s[j - 1])
    ensures Trim(s, white) == s[i..j]
  {
    SkipForwardStops(s, 0, i, white);
    SkipBackwardStops(s, i, |s|, j, white);
  }

  /**
   * "true" or "false" in any case, padded with white space or NUL
   * characters, parses to its value.
   */
  lemma ParseBooleanReads(s: string, i: nat, j: nat, b: bool)
    requires BooleanShape(s, i, j, b)
    ensures ParseBoolean(s) == Some(b)
  {
    BooleanRenderingsLowered();
    var t := s[i..j];
    assert Lower(t) == (if b then "true" else "false");
    assert |t| > 0 && t == s[i..j];
    assert LowerChar(t[0]) == Lower(t)[0] && LowerChar(t[|t| - 1]) == Lower(t)[|t| - 1];
    forall m | 0 <= m < i
      ensures IsBooleanTrim(s[m])
    {
      assert s[..i][m] == s[m];
    }
    forall m | j <= m < |s|
      ensures IsBooleanTrim(s[m])
    {
      assert s[j..][m - j] == s[m];
    }
    TrimBetween(s, i, j, IsBooleanTrim);
  }

  /** Conversely, whatever parses is the rendering of its value, in some case, with only trimmed characters around it. */
  lemma ParseBooleanDecomposes(s: string)
    requires ParseBoolean(s).Some?
    ensures exists i: nat, j: nat :: BooleanShape(s, i, j, ParseBoolean(s).value)
  {
    BooleanRenderingsLowered();
    var b := ParseBoolean(s).value;
    var i := SkipForward(s, 0, IsBooleanTrim);
    var j := SkipBackward(s, i, |s|, IsBooleanTrim);
    assert Lower(s[i..j]) == Lower(BooleanToString(b));
    forall m | 0 <= m < |s[..i]|
      ensures IsBooleanTrim(s[..i][m])
    {
      assert s[..i][m] == s[m];
    }
    forall m | 0 <= m < |s[j..]|
      ensures IsBooleanTrim(s[j..][m])
    {
      assert s[j..][m] == s[j + m];
    }
    assert BooleanShape(s, i, j, b);
  }

  /** `bool.TryParse` yields `b` exactly on text of the accepted shape for `b`. */
  lemma ParseBooleanIff(s: string, b: bool)
    ensures ParseBoolean(s) == Some(b) <==> exists i: nat, j: nat :: BooleanShape(s, i, j, b)
  {
    if ParseBoolean(s) == Some(b) {
      ParseBooleanDecomposes(s);
    }
    if exists i: nat, j: nat :: BooleanShape(s, i, j, b) {
      var i: nat, j: nat :| BooleanShape(s, i, j, b);
      ParseBooleanReads(s, i, j, b);
    }
  }

  /** A point in time, as the ticks of a `System.DateTime`. */
  datatype DateTime = DateTime(ticks: int)

  /** The culture-dependent `DateTime.TryParse`, supplied by the caller. */
  type DateParser = string -> Option<DateTime>
}
