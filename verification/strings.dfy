/** The parts of JavaScript string semantics the webhook relies on:
    the whitespace set shared by `String.prototype.trim` and the regular
    expression class `\s`, `trim` itself, ASCII digits, ASCII case folding
    (what a non-Unicode `/i` regular expression does) and the word characters
    that decide a `\b` boundary. */
module Strings {

  /** ECMAScript WhiteSpace and LineTerminator code points: TAB, LF, VT, FF, CR,
      SPACE, NO-BREAK SPACE, OGHAM SPACE MARK, EN QUAD..HAIR SPACE, LINE SEPARATOR,
      PARAGRAPH SEPARATOR, NARROW NO-BREAK SPACE, MEDIUM MATHEMATICAL SPACE,
      IDEOGRAPHIC SPACE and the BYTE ORDER MARK. */
  predicate IsWhitespace(c: char)
  {
    var n := c as int;
    (0x09 <= n <= 0x0D) || n == 0x20 || n == 0xA0 || n == 0x1680 ||
    (0x2000 <= n <= 0x200A) || n == 0x2028 || n == 0x2029 || n == 0x202F ||
    n == 0x205F || n == 0x3000 || n == 0xFEFF
  }

  predicate IsDigit(c: char)
  {
    '0' <= c <= '9'
  }

  /** The characters of `\w` without the Unicode flag: `[A-Za-z0-9_]`. */
  predicate IsWordChar(c: char)
  {
    ('a' <= c <= 'z') || ('A' <= c <= 'Z') || IsDigit(c) || c == '_'
  }

  /** Folds ASCII upper case to lower case and leaves every other character alone. */
  function ToLowerAscii(c: char): (r: char)
    ensures 'A' <= c <= 'Z' ==> 'a' <= r <= 'z' && r as int == c as int + 32
    ensures !('A' <= c <= 'Z') ==> r == c
  {
    if 'A' <= c <= 'Z' then (c as int + 32) as char else c
  }

  /** `a` equals the lower-case word `lower` up to ASCII case. */
  predicate EqualsIgnoringCase(a: string, lower: string)
  {
    |a| == |lower| && forall k | 0 <= k < |a| :: ToLowerAscii(a[k]) == lower[k]
  }

  predicate AllWhitespace(s: string)
  {
    forall k | 0 <= k < |s| :: IsWhitespace(s[k])
  }

  predicate AllDigits(s: string)
  {
    forall k | 0 <= k < |s| :: IsDigit(s[k])
  }

  /** Neither end of `s` is whitespace: what `trim` leaves behind. */
  predicate IsTrimmed(s: string)
  {
    s == [] || (!IsWhitespace(s[0]) && !IsWhitespace(s[|s| - 1]))
  }

  /** Drops the leading whitespace of `s`. */
  function TrimStart(s: string): (r: string)
    ensures |r| <= |s| && r == s[|s| - |r|..]
    ensures r == [] || !IsWhitespace(r[0])
  {
    if s != [] && IsWhitespace(s[0]) then TrimStart(s[1..]) else s
  }

  /** Drops the trailing whitespace of `s`. */
  function TrimEnd(s: string): (r: string)
    ensures |r| <= |s| && r == s[..|r|]
    ensures r == [] || !IsWhitespace(r[|r| - 1])
  {
    if s != [] && IsWhitespace(s[|s| - 1]) then TrimEnd(s[..|s| - 1]) else s
  }

  /** `String.prototype.trim`: removes all leading and all trailing whitespace. */
  function Trim(s: string): (r: string)
    ensures IsTrimmed(r)
  {
    var t := TrimStart(s);
    var r := TrimEnd(t);
    assert r != [] ==> r[0] == t[0];
    r
  }

  /** What `TrimStart` drops is whitespace. */
  lemma {:induction false} TrimStartDropsWhitespace(s: string)
    ensures AllWhitespace(s[..|s| - |TrimStart(s)|])
  {
    if s != [] && IsWhitespace(s[0]) {
      TrimStartDropsWhitespace(s[1..]);
      var n := |s| - |TrimStart(s)|;
      assert forall k | 1 <= k < n :: s[..n][k] == s[1..][..n - 1][k - 1];
    }
  }

  /** What `TrimEnd` drops is whitespace. */
  lemma {:induction false} TrimEndDropsWhitespace(s: string)
    ensures AllWhitespace(s[|TrimEnd(s)|..])
  {
    if s != [] && IsWhitespace(s[|s| - 1]) {
      var init := s[..|s| - 1];
      TrimEndDropsWhitespace(init);
      var n := |TrimEnd(s)|;
      assert forall j | 0 <= j < |s| - 1 - n :: s[n..][j] == init[n..][j];
    }
  }

  /** `trim` removes whitespace only: what it returns sits inside `s` with
      whitespace, and nothing else, on either side. */
  lemma TrimIsInfix(s: string)
    ensures exists i | 0 <= i <= |s| - |Trim(s)| ::
      s[i..i + |Trim(s)|] == Trim(s) &&
      AllWhitespace(s[..i]) && AllWhitespace(s[i + |Trim(s)|..])
  {
    var t := TrimStart(s);
    var r := TrimEnd(t);
    var i := |s| - |t|;
    TrimStartDropsWhitespace(s);
    TrimEndDropsWhitespace(t);
    assert s[i..] == t;
    assert s[i..i + |r|] == r;
    assert s[i + |r|..] == t[|r|..];
  }

  /** A string with no whitespace at either end is its own trim, so trimming twice
      is trimming once. */
  lemma TrimKeepsTrimmed(s: string)
    requires IsTrimmed(s)
    ensures Trim(s) == s
  {
  }

  /** Whitespace in front of a trimmed string is all that `trim` removes. */
  lemma TrimDropsLeadingWhitespace(c: char, s: string)
    requires IsWhitespace(c) && IsTrimmed(s)
    ensures Trim([c] + s) == s
  {
    assert ([c] + s)[1..] == s;
    assert TrimStart([c] + s) == TrimStart(s);
    TrimKeepsTrimmed(s);
  }

  /** `trim` gives the empty string exactly when `s` is all whitespace. */
  lemma TrimEmptyIff(s: string)
    ensures Trim(s) == [] <==> AllWhitespace(s)
  {
    var t := TrimStart(s);
    var n := |s| - |t|;
    TrimStartDropsWhitespace(s);
    TrimEndDropsWhitespace(t);
    if !AllWhitespace(s) {
      var k :| 0 <= k < |s| && !IsWhitespace(s[k]);
    }
  }
}
