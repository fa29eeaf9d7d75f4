/** `parseDuration` (api/tg-webhook.js): a duration such as `45`, `2m` or `1 H`
    in milliseconds, or a fallback when the text is not a duration. */
module Duration {
  import opened Strings

  /** One of the unit letters of `[smh]` under the `/i` flag. */
  predicate IsUnitChar(c: char)
  {
    var l := ToLowerAscii(c);
    l == 's' || l == 'm' || l == 'h'
  }

  /** What may follow the digits and the optional whitespace: nothing, or one unit letter. */
  predicate IsUnitSuffix(u: string)
  {
    u == [] || (|u| == 1 && IsUnitChar(u[0]))
  }

  /** Milliseconds per unit; no unit means seconds. */
  function UnitScale(u: string): (scale: nat)
    ensures scale == 1000 || scale == 60_000 || scale == 3_600_000
    ensures u == [] ==> scale == 1000
    ensures u != [] ==> (scale == 3_600_000 <==> ToLowerAscii(u[0]) == 'h')
    ensures u != [] ==> (scale == 60_000 <==> ToLowerAscii(u[0]) == 'm')
  {
    if u == [] then 1000
    else
      var l := ToLowerAscii(u[0]);
      if l == 'h' then 3_600_000 else if l == 'm' then 60_000 else 1000
  }

  /** `parseInt(digits, 10)` on a run of decimal digits (0 for the empty run, which the
      pattern never passes). */
  function DigitsValue(s: string): (v: nat)
    requires AllDigits(s)
    ensures v < Pow10(|s|)
  {
    if s == [] then 0
    else DigitsValue(s[..|s| - 1]) * 10 + (s[|s| - 1] as int - '0' as int)
  }

  function Pow10(n: nat): (p: nat)
    ensures p >= 1
  {
    if n == 0 then 1 else 10 * Pow10(n - 1)
  }

  /** Leading zeros do not change the number `parseInt` reads. */
  lemma {:induction false} DigitsValueLeadingZero(s: string)
    requires AllDigits(s)
    ensures AllDigits(['0'] + s) && DigitsValue(['0'] + s) == DigitsValue(s)
  {
    var z := ['0'] + s;
    if s != [] {
      var init := s[..|s| - 1];
      assert z[..|z| - 1] == ['0'] + init;
      DigitsValueLeadingZero(init);
    } else {
      assert z[..0] == [];
    }
  }

  function Max(a: int, b: int): int
  {
    if a < b then b else a
  }

  /** The length of the longest prefix of `s` made of digits. */
  function DigitRunLength(s: string): (n: nat)
    ensures n <= |s|
  {
    if s != [] && IsDigit(s[0]) then 1 + DigitRunLength(s[1..]) else 0
  }

  /** The length of the longest prefix of `s` made of whitespace. */
  function WhitespaceRunLength(s: string): (n: nat)
    ensures n <= |s|
  {
    if s != [] && IsWhitespace(s[0]) then 1 + WhitespaceRunLength(s[1..]) else 0
  }

  /** The digit run is all digits and is followed by a character that is not one. */
  lemma {:induction false} DigitRunIsMaximal(s: string)
    ensures AllDigits(s[..DigitRunLength(s)])
    ensures DigitRunLength(s) < |s| ==> !IsDigit(s[DigitRunLength(s)])
  {
    if s != [] && IsDigit(s[0]) {
      DigitRunIsMaximal(s[1..]);
      var n := DigitRunLength(s);
      assert s[..n] == [s[0]] + s[1..][..n - 1];
    }
  }

  /** The whitespace run is all whitespace and is followed by a character that is not. */
  lemma {:induction false} WhitespaceRunIsMaximal(s: string)
    ensures AllWhitespace(s[..WhitespaceRunLength(s)])
    ensures WhitespaceRunLength(s) < |s| ==> !IsWhitespace(s[WhitespaceRunLength(s)])
  {
    if s != [] && IsWhitespace(s[0]) {
      WhitespaceRunIsMaximal(s[1..]);
      var n := WhitespaceRunLength(s);
      assert s[..n] == [s[0]] + s[1..][..n - 1];
    }
  }

  /** The match of `^(\d+)\s*([smh]?)$` (case-insensitive) against an already trimmed
      `t`, done by scanning the digit run, then the whitespace run, then the optional
      unit; on a match the number times the unit's scale, never less than one second,
      and otherwise `fallbackMs` unchanged. */
  function MatchDuration(t: string, fallbackMs: nat): (ms: nat)
    ensures ms == fallbackMs || ms >= 1000
  {
    var i := DigitRunLength(t);
    var j := i + WhitespaceRunLength(t[i..]);
    if 0 < i && IsUnitSuffix(t[j..]) then
      DigitRunIsMaximal(t);
      Max(1000, DigitsValue(t[..i]) * UnitScale(t[j..]))
    else
      fallbackMs
  }

  /** `parseDuration(text, fallbackMs)`: trims `text` and matches what is left. */
  function ParseDuration(text: string, fallbackMs: nat): (ms: nat)
    ensures ms == fallbackMs || ms >= 1000
  {
    MatchDuration(Trim(text), fallbackMs)
  }

  /** The regular expression `^(\d+)\s*([smh]?)$` read as a split of `t`:
      digits in `t[..i]`, whitespace in `t[i..j]`, the optional unit in `t[j..]`. */
  ghost predicate DurationSplit(t: string, i: int, j: int)
  {
    0 < i <= j <= |t| && AllDigits(t[..i]) && AllWhitespace(t[i..j]) && IsUnitSuffix(t[j..])
  }

  ghost predicate MatchesDurationPattern(t: string)
  {
    exists i, j :: DurationSplit(t, i, j)
  }

  /** A split of a string that matches the pattern is the one the scan finds. */
  lemma SplitIsUnique(t: string, i: int, j: int)
    requires DurationSplit(t, i, j)
    ensures i == DigitRunLength(t)
    ensures j == i + WhitespaceRunLength(t[i..])
  {
    // Every position before i is a digit and t[i] is not: it is whitespace or the unit.
    var n := DigitRunLength(t);
    DigitRunIsMaximal(t);
    assert forall k | 0 <= k < n :: IsDigit(t[k]) by {
      forall k | 0 <= k < n ensures IsDigit(t[k]) { assert t[..n][k] == t[k]; }
    }
    assert i < |t| ==> !IsDigit(t[i]) by {
      if i < |t| {
        if i < j { assert t[i..j][0] == t[i]; } else { assert t[j..][0] == t[i]; }
      }
    }
    assert n < |t| ==> !IsDigit(t[n]);
    assert forall k | 0 <= k < i :: IsDigit(t[k]) by {
      forall k | 0 <= k < i ensures IsDigit(t[k]) { assert t[..i][k] == t[k]; }
    }
    // The same argument for the whitespace run that starts at i.
    var w := WhitespaceRunLength(t[i..]);
    WhitespaceRunIsMaximal(t[i..]);
    assert forall k | i <= k < i + w :: IsWhitespace(t[k]) by {
      forall k | i <= k < i + w ensures IsWhitespace(t[k]) { assert t[i..][..w][k - i] == t[k]; }
    }
    assert j < |t| ==> !IsWhitespace(t[j]) by {
      if j < |t| { assert t[j..][0] == t[j]; }
    }
    assert i + w < |t| ==> !IsWhitespace(t[i + w]) by {
      if i + w < |t| { assert t[i..][w] == t[i + w]; }
    }
    assert forall k | i <= k < j :: IsWhitespace(t[k]) by {
      forall k | i <= k < j ensures IsWhitespace(t[k]) { assert t[i..j][k - i] == t[k]; }
    }
  }

  /** The scan `MatchDuration` performs finds a split whenever it accepts. */
  lemma ScanFindsSplit(t: string)
    ensures var i := DigitRunLength(t);
      var j := i + WhitespaceRunLength(t[i..]);
      0 < i && IsUnitSuffix(t[j..]) ==> DurationSplit(t, i, j)
  {
    var i := DigitRunLength(t);
    var j := i + WhitespaceRunLength(t[i..]);
    DigitRunIsMaximal(t);
    WhitespaceRunIsMaximal(t[i..]);
    assert t[i..j] == t[i..][..j - i];
  }

  /** A text that does not match gets the fallback. */
  lemma MatchDurationUnmatched(t: string, fallbackMs: nat)
    requires !MatchesDurationPattern(t)
    ensures MatchDuration(t, fallbackMs) == fallbackMs
  {
    ScanFindsSplit(t);
  }

  /** A text that matches gets its number times its unit's scale, floored at a second. */
  lemma MatchDurationMatched(t: string, fallbackMs: nat, i: int, j: int)
    requires DurationSplit(t, i, j)
    ensures MatchDuration(t, fallbackMs) == Max(1000, DigitsValue(t[..i]) * UnitScale(t[j..]))
  {
    SplitIsUnique(t, i, j);
  }

  /** When the trimmed text does not match the pattern, the fallback comes back unchanged
      (the empty text included). */
  lemma ParseDurationUnmatched(text: string, fallbackMs: nat)
    requires !MatchesDurationPattern(Trim(text))
    ensures ParseDuration(text, fallbackMs) == fallbackMs
  {
    MatchDurationUnmatched(Trim(text), fallbackMs);
  }

  /** When the trimmed text matches the pattern, the result is the number times the scale
      of its unit (seconds when there is none), floored at one second. */
  lemma ParseDurationMatched(text: string, fallbackMs: nat, i: int, j: int)
    requires DurationSplit(Trim(text), i, j)
    ensures ParseDuration(text, fallbackMs)
         == Max(1000, DigitsValue(Trim(text)[..i]) * UnitScale(Trim(text)[j..]))
    ensures ParseDuration(text, fallbackMs) >= 1000
  {
    MatchDurationMatched(Trim(text), fallbackMs, i, j);
  }

  /** Worked values: `45` is 45 seconds. */
  lemma ParseDurationSeconds(fallbackMs: nat)
    ensures ParseDuration("45", fallbackMs) == 45_000
  {
    assert IsTrimmed("45");
    assert DigitsValue("45") == 45 by { assert "45"[..1] == "4"; }
    assert DurationSplit("45", 2, 2);
    ParseDurationMatched("45", fallbackMs, 2, 2);
  }

  /** `2m` is two minutes. */
  lemma ParseDurationMinutes(fallbackMs: nat)
    ensures ParseDuration("2m", fallbackMs) == 120_000
  {
    var t := "2m";
    assert IsTrimmed(t);
    assert t[..1] == "2" && t[1..1] == [] && t[1..] == "m";
    assert DigitsValue("2") == 2 by { assert "2"[..0] == []; }
    assert IsUnitChar('m') && UnitScale("m") == 60_000;
    assert DurationSplit(t, 1, 1);
    ParseDurationMatched(t, fallbackMs, 1, 1);
  }

  /** `1h` is an hour. */
  lemma ParseDurationHours(fallbackMs: nat)
    ensures ParseDuration("1h", fallbackMs) == 3_600_000
  {
    var t := "1h";
    assert IsTrimmed(t);
    assert t[..1] == "1" && t[1..1] == [] && t[1..] == "h";
    assert DigitsValue("1") == 1 by { assert "1"[..0] == []; }
    assert IsUnitChar('h') && UnitScale("h") == 3_600_000;
    assert DurationSplit(t, 1, 1);
    ParseDurationMatched(t, fallbackMs, 1, 1);
  }

  /** `5M` is five minutes: the unit is case-insensitive. */
  lemma ParseDurationUpperCaseUnit(fallbackMs: nat)
    ensures ParseDuration("5M", fallbackMs) == 300_000
  {
    var t := "5M";
    assert IsTrimmed(t);
    assert t[..1] == "5" && t[1..1] == [] && t[1..] == "M";
    assert DigitsValue("5") == 5 by { assert "5"[..0] == []; }
    assert IsUnitChar('M') && UnitScale("M") == 60_000;
    assert DurationSplit(t, 1, 1);
    ParseDurationMatched(t, fallbackMs, 1, 1);
  }

  /** `0` is floored to one second, so an explicit zero never reads as "off". */
  lemma ParseDurationZero(fallbackMs: nat)
    ensures ParseDuration("0", fallbackMs) == 1000
  {
    var t := "0";
    assert IsTrimmed(t);
    assert t[..1] == t && t[1..1] == [] && t[1..] == [];
    assert DurationSplit(t, 1, 1);
    ParseDurationMatched(t, fallbackMs, 1, 1);
  }

  /** The empty text gives the fallback. */
  lemma ParseDurationEmpty(fallbackMs: nat)
    ensures ParseDuration("", fallbackMs) == fallbackMs
  {
    assert Trim("") == "";
    ParseDurationUnmatched("", fallbackMs);
  }

  /** A unit that is not `s`, `m` or `h` gives the fallback. */
  lemma ParseDurationUnknownUnit(fallbackMs: nat)
    ensures ParseDuration("2 weeks", fallbackMs) == fallbackMs
  {
    var t := "2 weeks";
    assert IsTrimmed(t);
    assert DigitRunLength(t) == 1 by {
      assert t[1..] == " weeks";
      assert DigitRunLength(" weeks") == 0;
    }
    assert WhitespaceRunLength(t[1..]) == 1 by {
      assert t[1..] == " weeks";
      assert " weeks"[1..] == "weeks";
      assert WhitespaceRunLength("weeks") == 0;
    }
    assert t[2..] == "weeks";
  }
}
