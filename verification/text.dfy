/**
 * The two string checks the forms rely on: JavaScript's `String.prototype.trim`
 * (used as "is this field blank?") and the mobile-number pattern `/^\d{10}$/`.
 */
module Text {

  /** ECMAScript WhiteSpace and LineTerminator code points, the set `trim` strips. */
  predicate IsJsWhitespace(c: char) {
    || c == '\t' || c == '\U{000B}' || c == '\U{000C}' || c == ' '
    || c == '\U{00A0}' || c == '\U{FEFF}'
    || c == '\n' || c == '\r' || c == '\U{2028}' || c == '\U{2029}'
    || c == '\U{1680}' || ('\U{2000}' <= c <= '\U{200A}')
    || c == '\U{202F}' || c == '\U{205F}' || c == '\U{3000}'
  }

  /** `\d` in a JavaScript regular expression without the `u` flag: ASCII digits only. */
  predicate IsAsciiDigit(c: char) {
    '0' <= c <= '9'
  }

  /** Drops leading whitespace: the longest suffix that does not start with whitespace. */
  function TrimStart(s: string): (r: string)
    ensures |r| <= |s| && r == s[|s| - |r|..]
    ensures forall i :: 0 <= i < |s| - |r| ==> IsJsWhitespace(s[i])
    ensures r != [] ==> !IsJsWhitespace(r[0])
    decreases |s|
  {
    if s != [] && IsJsWhitespace(s[0]) then TrimStart(s[1..]) else s
  }

  /** Drops trailing whitespace: the longest prefix that does not end with whitespace. */
  function TrimEnd(s: string): (r: string)
    ensures |r| <= |s| && r == s[..|r|]
    ensures forall i :: |r| <= i < |s| ==> IsJsWhitespace(s[i])
    ensures r != [] ==> !IsJsWhitespace(r[|r| - 1])
    decreases |s|
  {
    if s != [] && IsJsWhitespace(s[|s| - 1]) then TrimEnd(s[..|s| - 1]) else s
  }

  /** Cutting a `p`-run off the front and then off the back keeps one slice of `s`
      with only `p` characters around it. */
  lemma CutBothEndsIsSlice<T>(s: seq<T>, t: seq<T>, r: seq<T>, p: T -> bool) returns (i: nat, j: nat)
    requires |t| <= |s| && t == s[|s| - |t|..]
    requires forall k :: 0 <= k < |s| - |t| ==> p(s[k])
    requires |r| <= |t| && r == t[..|r|]
    requires forall k :: |r| <= k < |t| ==> p(t[k])
    ensures i <= j <= |s| && r == s[i..j]
    ensures forall k :: (0 <= k < i || j <= k < |s|) ==> p(s[k])
  {
    i, j := |s| - |t|, |s| - |t| + |r|;
    assert r == s[i..j];
    forall k | 0 <= k < i || j <= k < |s| ensures p(s[k]) {
      if j <= k {
        assert t[k - i] == s[k];
      }
    }
  }

  /** `s.trim()`. */
  function Trim(s: string): (r: string)
    ensures r != [] ==> !IsJsWhitespace(r[0]) && !IsJsWhitespace(r[|r| - 1])
  {
    TrimEnd(TrimStart(s))
  }

  /** What `trim` keeps is one contiguous slice of `s`; everything cut off around
      it is whitespace. */
  lemma TrimKeepsSlice(s: string)
    ensures exists i, j :: (0 <= i <= j <= |s| && Trim(s) == s[i..j] &&
      (forall k :: (0 <= k < i || j <= k < |s|) ==> IsJsWhitespace(s[k])))
  {
    var t := TrimStart(s);
    var r := TrimEnd(t);
    var i, j := CutBothEndsIsSlice(s, t, r, IsJsWhitespace);
    assert 0 <= i <= j <= |s| && Trim(s) == s[i..j] &&
      forall k :: (0 <= k < i || j <= k < |s|) ==> IsJsWhitespace(s[k]);
  }

  /** `!s.trim()`: every character of `s` is whitespace. */
  predicate IsBlank(s: string): (b: bool)
    ensures b <==> Trim(s) == ""
  {
    var t := TrimStart(s);
    assert t != [] ==> t[0] == s[|s| - |t|];
    forall i :: 0 <= i < |s| ==> IsJsWhitespace(s[i])
  }

  /** Number of ASCII digits at the front of `s`. */
  function LeadingDigits(s: string): (n: nat)
    ensures n <= |s|
    ensures forall i :: 0 <= i < n ==> IsAsciiDigit(s[i])
    ensures n < |s| ==> !IsAsciiDigit(s[n])
    decreases |s|
  {
    if s != [] && IsAsciiDigit(s[0]) then 1 + LeadingDigits(s[1..]) else 0
  }

  /** `/^\d{10}$/.test(s)`: the whole string is ten digits. */
  predicate IsTenDigits(s: string)
    ensures IsTenDigits(s) <==> |s| == 10 && forall i :: 0 <= i < |s| ==> IsAsciiDigit(s[i])
  {
    |s| == 10 && LeadingDigits(s) == 10
  }

  /** The pattern accepts a ten-digit number and rejects too short, too long and non-digit input. */
  lemma MobilePatternExamples()
    ensures IsTenDigits("9876543210")
    ensures !IsTenDigits("98765")
    ensures !IsTenDigits("98765432100")
    ensures !IsTenDigits("98765abcde")
    ensures !IsTenDigits("987654321 ")
  {
    var good := "9876543210";
    forall i | 0 <= i < |good| ensures IsAsciiDigit(good[i]) {
      assert '0' <= good[i] <= '9';
    }
    assert |"98765"| == 5 && |"98765432100"| == 11;
    assert !IsAsciiDigit("98765abcde"[5]);
    assert !IsAsciiDigit("987654321 "[9]);
  }
}
