/** Python's `str()` of an integer and `int()` of a text in base 10. */
module Decimal {
  import opened Results
  import opened Strings

  predicate IsDigit(c: char) {
    '0' <= c <= '9'
  }

  predicate AllDigits(s: string) {
    forall i :: 0 <= i < |s| ==> IsDigit(s[i])
  }

  function DigitChar(d: nat): (c: char)
    requires d < 10
    ensures IsDigit(c)
  {
    ('0' as int + d) as char
  }

  function DigitValue(c: char): nat
    requires IsDigit(c)
  {
    c as int - '0' as int
  }

  /** `str(n)` for a natural number: its shortest decimal text. */
  function NatToString(n: nat): (r: string)
    ensures |r| > 0 && AllDigits(r)
    decreases n
  {
    if n < 10 then [DigitChar(n)] else NatToString(n / 10) + [DigitChar(n % 10)]
  }

  /** `str(i)` for any integer. */
  function IntToString(i: int): string {
    if i < 0 then "-" + NatToString(-i) else NatToString(i)
  }

  /** The number a string of decimal digits denotes (leading zeros allowed). */
  function DigitsValue(ds: string): nat
    requires AllDigits(ds)
    decreases |ds|
  {
    if |ds| == 0 then 0 else 10 * DigitsValue(ds[..|ds| - 1]) + DigitValue(ds[|ds| - 1])
  }

  /** A digit run as `int()` accepts it: digits, with single underscores
      allowed between two digits. */
  predicate IsDigitGroup(s: string) {
    && |s| > 0
    && IsDigit(s[0])
    && IsDigit(s[|s| - 1])
    && (forall i :: 0 <= i < |s| ==> IsDigit(s[i]) || s[i] == '_')
    && (forall i :: 0 <= i < |s| - 1 ==> DigitAfterUnderscore(s, i))
  }

  /** An underscore at index `i` is followed by a digit. */
  predicate DigitAfterUnderscore(s: string, i: int)
    requires 0 <= i < |s| - 1
  {
    s[i] == '_' ==> IsDigit(s[i + 1])
  }

  /** The text with its underscores taken out. */
  function RemoveUnderscores(s: string): string
    decreases |s|
  {
    if |s| == 0 then ""
    else if s[0] == '_' then RemoveUnderscores(s[1..])
    else [s[0]] + RemoveUnderscores(s[1..])
  }

  /** Taking the underscores out of a text of digits and underscores leaves only digits. */
  lemma {:induction false} UnderscoresRemoved(s: string)
    requires forall i :: 0 <= i < |s| ==> IsDigit(s[i]) || s[i] == '_'
    ensures AllDigits(RemoveUnderscores(s))
    decreases |s|
  {
    if |s| > 0 {
      UnderscoresRemoved(s[1..]);
    }
  }

  /** `int(s)`: surrounding whitespace stripped, an optional sign, then a digit run. */
  function ParseInt(s: string): (r: Option<int>)
    ensures r.Some? ==> exists i :: 0 <= i < |s| && IsDigit(s[i])
  {
    StrippedKeepsDigits(s);
    ParseSigned(Strip(s))
  }

  /** A digit of the stripped text is a digit of the text. */
  lemma StrippedKeepsDigits(s: string)
    ensures (exists j :: 0 <= j < |Strip(s)| && IsDigit(Strip(s)[j])) ==> exists i :: 0 <= i < |s| && IsDigit(s[i])
  {
    var t := Strip(s);
    if exists j :: 0 <= j < |t| && IsDigit(t[j]) {
      var k :| OccursAt(s, t, k);
      var j :| 0 <= j < |t| && IsDigit(t[j]);
      assert s[k + j] == t[j];
    }
  }

  /** `int()` of a stripped text: an optional sign, then a digit run. */
  function ParseSigned(t: string): (r: Option<int>)
    ensures r.Some? ==> exists j :: 0 <= j < |t| && IsDigit(t[j])
  {
    if |t| > 0 && (t[0] == '-' || t[0] == '+') then
      match ParseGroup(t[1..])
      case Some(n) =>
        assert IsDigit(t[1]);
        Some(if t[0] == '-' then -(n as int) else n)
      case None => None
    else
      match ParseGroup(t)
      case Some(n) => Some(n)
      case None => None
  }

  /** The value of a digit run, or nothing when the text is not one. */
  function ParseGroup(body: string): (r: Option<nat>)
    ensures r.Some? ==> |body| > 0 && IsDigit(body[0])
  {
    if IsDigitGroup(body) then
      UnderscoresRemoved(body);
      Some(DigitsValue(RemoveUnderscores(body)))
    else
      None
  }

  /** A plain digit string is a digit run with nothing to remove. */
  lemma GroupOfDigits(body: string)
    requires |body| > 0 && AllDigits(body)
    ensures ParseGroup(body) == Some(DigitsValue(body))
  {
    RemoveUnderscoresOfDigits(body);
  }

  /** `int()` reads a plain digit string as the number it denotes. */
  lemma ParseDigits(s: string)
    requires |s| > 0 && AllDigits(s)
    ensures ParseInt(s) == Some(DigitsValue(s))
  {
    assert !IsSpace(s[0]) && !IsSpace(s[|s| - 1]);
    ParseUnpadded(s);
    SignedDigits(s);
  }

  /** A digit string has no sign and is read as its value. */
  lemma SignedDigits(t: string)
    requires |t| > 0 && AllDigits(t)
    ensures ParseSigned(t) == Some(DigitsValue(t))
  {
    assert IsDigit(t[0]);
    GroupOfDigits(t);
  }

  /** `int()` ignores whitespace in front of the number. */
  lemma ParseIntIgnoresLeadingSpace(c: char, s: string)
    requires IsSpace(c)
    ensures ParseInt([c] + s) == ParseInt(s)
  {
    assert ([c] + s)[1..] == s;
  }

  /** `int()` ignores whitespace after the number. */
  lemma ParseIntIgnoresTrailingSpace(s: string, c: char)
    requires IsSpace(c)
    ensures ParseInt(s + [c]) == ParseInt(s)
  {
    StripIgnoresTrailingSpace(s, c);
  }

  /** Character `k` of a stripped text may stand in a number `int()` accepts: a digit,
      a sign in front, or an underscore between two digits. */
  predicate NumeralChar(t: string, k: int)
    requires 0 <= k < |t|
  {
    || IsDigit(t[k])
    || (k == 0 && (t[0] == '-' || t[0] == '+'))
    || (t[k] == '_' && 0 < k < |t| - 1 && IsDigit(t[k - 1]) && IsDigit(t[k + 1]))
  }

  /** A digit run holds no sign, and each of its underscores stands between two digits. */
  lemma GroupCharacters(body: string)
    requires IsDigitGroup(body)
    ensures forall k :: 0 <= k < |body| ==> NumeralChar(body, k) && body[k] != '-' && body[k] != '+'
  {
    forall k | 0 <= k < |body| ensures NumeralChar(body, k) && body[k] != '-' && body[k] != '+' {
      if !IsDigit(body[k]) {
        assert k != 0 && k != |body| - 1;
        assert DigitAfterUnderscore(body, k);
        assert DigitAfterUnderscore(body, k - 1);
      }
    }
  }

  /** `int()` rejects a text that, once stripped, holds any other character: a letter,
      an inner sign, a doubled or outer underscore. */
  lemma ParseIntCharacters(s: string)
    ensures ParseInt(s).Some? ==> forall k :: 0 <= k < |Strip(s)| ==> NumeralChar(Strip(s), k)
  {
    if ParseInt(s).Some? {
      SignedCharacters(Strip(s));
    }
  }

  lemma SignedCharacters(t: string)
    requires ParseSigned(t).Some?
    ensures forall k :: 0 <= k < |t| ==> NumeralChar(t, k)
  {
    if |t| > 0 && (t[0] == '-' || t[0] == '+') {
      var body := t[1..];
      assert IsDigitGroup(body);
      GroupCharacters(body);
      forall k | 0 < k < |t| ensures NumeralChar(t, k) {
        assert NumeralChar(body, k - 1) && t[k] == body[k - 1];
        if !IsDigit(t[k]) {
          assert t[k - 1] == body[k - 2] && t[k + 1] == body[k];
        }
      }
    } else {
      assert IsDigitGroup(t);
      GroupCharacters(t);
    }
  }

  /** For example, `int("30s")` fails. */
  lemma UnitSuffixRejected()
    ensures ParseInt("30s") == None
  {
    var t := "30s";
    StripUnpadded(t);
    ParseIntCharacters(t);
    assert !NumeralChar(t, 2);
  }

  lemma {:induction false} DigitsValueOfNatToString(n: nat)
    ensures DigitsValue(NatToString(n)) == n
    decreases n
  {
    var s := NatToString(n);
    if n >= 10 {
      DigitsValueOfNatToString(n / 10);
      assert s[..|s| - 1] == NatToString(n / 10);
    }
  }

  lemma {:induction false} RemoveUnderscoresOfDigits(s: string)
    requires AllDigits(s)
    ensures RemoveUnderscores(s) == s
    decreases |s|
  {
    if |s| > 0 {
      RemoveUnderscoresOfDigits(s[1..]);
      assert s == [s[0]] + s[1..];
    }
  }

  /** A minus sign in front of a digit string negates its value. */
  lemma SignedNegative(t: string)
    requires |t| > 1 && t[0] == '-' && AllDigits(t[1..])
    ensures ParseSigned(t) == Some(-(DigitsValue(t[1..]) as int))
  {
    GroupOfDigits(t[1..]);
  }

  /** A text without whitespace at either end is parsed as it stands. */
  lemma ParseUnpadded(t: string)
    requires |t| > 0 && !IsSpace(t[0]) && !IsSpace(t[|t| - 1])
    ensures ParseInt(t) == ParseSigned(t)
  {
    StripUnpadded(t);
  }

  /** The text of a negative integer: a minus sign, then the digits of its magnitude. */
  lemma NegativeText(i: int)
    requires i < 0
    ensures var t := IntToString(i);
      && |t| > 1 && t[0] == '-' && t[1..] == NatToString(-i)
      && !IsSpace(t[0]) && !IsSpace(t[|t| - 1])
  {
    var digits := NatToString(-i);
    var t := IntToString(i);
    assert t == "-" + digits;
    assert t[1..] == digits;
    assert t[|t| - 1] == digits[|digits| - 1];
  }

  /** `int()` reads a minus sign followed by the decimal text of `n` as `-n`. */
  lemma ParseMinusDigits(t: string, n: nat)
    requires |t| > 1 && t[0] == '-' && t[1..] == NatToString(n)
    requires !IsSpace(t[0]) && !IsSpace(t[|t| - 1])
    ensures ParseInt(t) == Some(-(n as int))
  {
    DigitsValueOfNatToString(n);
    ParseUnpadded(t);
    SignedNegative(t);
  }

  /** `int()` reads back the decimal text of every natural number. */
  lemma ParseNatRoundTrip(n: nat)
    ensures ParseInt(NatToString(n)) == Some(n)
  {
    DigitsValueOfNatToString(n);
    ParseDigits(NatToString(n));
  }

  /** `int()` reads back the text `str()` writes for a negative integer. */
  lemma ParseNegativeRoundTrip(i: int)
    requires i < 0
    ensures ParseInt(IntToString(i)) == Some(i)
  {
    NegativeText(i);
    ParseMinusDigits(IntToString(i), -i);
  }

  /** `int()` reads back every text `str()` writes for an integer. */
  lemma ParseIntRoundTrip(i: int)
    ensures ParseInt(IntToString(i)) == Some(i)
  {
    if i < 0 {
      ParseNegativeRoundTrip(i);
    } else {
      ParseNatRoundTrip(i);
    }
  }
}
