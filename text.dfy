/** Character-level stand-ins for what the validator borrows from the script
    engine: the length of a string, the two regular expressions it matches
    values against, and the coercion of a value to a number. */
module Text {

  datatype Option<T> = None | Some(value: T)

  /** Length of a string in UTF-16 code units, which is what a script engine
      reports as `length`: a character outside the Basic Multilingual Plane
      takes two units. */
  function Utf16Length(s: string): (n: nat)
    ensures |s| <= n <= 2 * |s|
  {
    if s == [] then 0
    else (if s[0] as int > 0xFFFF then 2 else 1) + Utf16Length(s[1..])
  }

  /** On text inside the Basic Multilingual Plane (every character the form's
      rules mention), the UTF-16 length is the number of characters. */
  lemma {:induction false} Utf16LengthBmp(s: string)
    requires forall j :: 0 <= j < |s| ==> s[j] as int <= 0xFFFF
    ensures Utf16Length(s) == |s|
  {
    if s != [] {
      Utf16LengthBmp(s[1..]);
    }
  }

  /** The characters that `.` in a regular expression refuses to match. */
  predicate IsLineTerminator(c: char) {
    c == '\n' || c == '\r' || c == '\U{2028}' || c == '\U{2029}'
  }

  /** Every character of `s` is one that `.` matches. */
  predicate OnOneLine(s: string) {
    forall c :: c in s ==> !IsLineTerminator(c)
  }

  /** Position of the first occurrence of `c` in `s`. */
  function IndexOf(s: string, c: char): (r: Option<nat>)
    ensures r.None? <==> c !in s
    ensures r.Some? ==> r.value < |s| && s[r.value] == c && c !in s[..r.value]
  {
    if s == [] then None
    else if s[0] == c then Some(0)
    else match IndexOf(s[1..], c)
      case None => None
      case Some(i) =>
        assert s[..i + 1] == [s[0]] + s[1..][..i];
        Some(i + 1)
  }

  /** The pattern `^[^@]+@.+\..+$` read as a split of the whole string:
      s[..i] is the non-empty run without '@', s[i] the '@', s[i+1..k] the
      first `.+`, s[k] the literal dot and s[k+1..] the second `.+`. */
  ghost predicate EmailPattern(s: string) {
    exists i, k | 0 < i && i + 1 < k && k + 1 < |s| ::
      && '@' !in s[..i]
      && s[i] == '@'
      && OnOneLine(s[i + 1..k])
      && s[k] == '.'
      && OnOneLine(s[k + 1..])
  }

  /** Some '.' of `t` has a character on each side. */
  predicate DotInside(t: string) {
    exists k | 1 <= k < |t| - 1 :: t[k] == '.'
  }

  /** A deterministic reading of the e-mail pattern: the first '@' is not at
      the front, and what follows it is on one line and holds an inner dot. */
  function IsEmail(s: string): (ok: bool)
    ensures ok ==> '@' in s && s[0] != '@' && |s| >= 5
  {
    match IndexOf(s, '@')
    case None => false
    case Some(i) => 0 < i && OnOneLine(s[i + 1..]) && DotInside(s[i + 1..])
  }

  lemma IsEmailSound(s: string)
    requires IsEmail(s)
    ensures EmailPattern(s)
  {
    var i := IndexOf(s, '@').value;
    var t := s[i + 1..];
    var k' :| 1 <= k' < |t| - 1 && t[k'] == '.';
    var k := i + 1 + k';
    assert s[i + 1..k] == t[..k'];
    assert s[k + 1..] == t[k' + 1..];
    assert OnOneLine(s[i + 1..k]) && OnOneLine(s[k + 1..]);
  }

  lemma IsEmailComplete(s: string, i: int, k: int)
    requires 0 < i && i + 1 < k && k + 1 < |s|
    requires '@' !in s[..i] && s[i] == '@' && s[k] == '.'
    requires OnOneLine(s[i + 1..k]) && OnOneLine(s[k + 1..])
    ensures IsEmail(s)
  {
    var r := IndexOf(s, '@');
    var t := s[i + 1..];
    assert t == s[i + 1..k] + [s[k]] + s[k + 1..];
    assert t[k - i - 1] == '.';
    forall c | c in t ensures !IsLineTerminator(c) {
      assert c in s[i + 1..k] || c == s[k] || c in s[k + 1..];
    }
  }

  /** The scan agrees with the pattern on every string. */
  lemma IsEmailMatchesPattern(s: string)
    ensures IsEmail(s) <==> EmailPattern(s)
  {
    if IsEmail(s) {
      IsEmailSound(s);
    }
    if EmailPattern(s) {
      var i, k :| 0 < i && i + 1 < k && k + 1 < |s| &&
        '@' !in s[..i] && s[i] == '@' && OnOneLine(s[i + 1..k]) && s[k] == '.' && OnOneLine(s[k + 1..]);
      IsEmailComplete(s, i, k);
    }
  }

  /** The class `[ァ-ヶー　]`: U+30A1..U+30F6, the prolonged sound mark U+30FC
      and the ideographic space U+3000. */
  predicate IsKanaChar(c: char) {
    '\U{30A1}' <= c <= '\U{30F6}' || c == '\U{30FC}' || c == '\U{3000}'
  }

  /** The pattern `^[ァ-ヶー　]*$`: every character is in the class. */
  predicate IsKana(s: string)
    ensures IsKana(s) <==> forall j :: 0 <= j < |s| ==> IsKanaChar(s[j])
  {
    forall c :: c in s ==> IsKanaChar(c)
  }

  predicate IsDigit(c: char) {
    '0' <= c <= '9'
  }

  predicate AllDigits(d: string) {
    forall c :: c in d ==> IsDigit(c)
  }

  /** The value of a string of decimal digits, most significant first. */
  function DigitsValue(d: string): nat
    requires AllDigits(d)
  {
    if d == [] then 0
    else
      assert d[|d| - 1] in d;
      DigitsValue(d[..|d| - 1]) * 10 + (d[|d| - 1] as int - '0' as int)
  }

  /** Coercion of a value to a number: the empty string is 0, an optionally
      signed run of decimal digits is its value, and anything else is NaN
      (None), against which every comparison is false. */
  function NumberOf(s: string): (r: Option<int>)
    ensures s == "" ==> r == Some(0)
    ensures r.Some? && s != "" ==> IsDigit(s[|s| - 1])
  {
    if s == "" then Some(0)
    else
      var negative := s[0] == '-';
      var digits := if s[0] == '-' || s[0] == '+' then s[1..] else s;
      if digits != "" && AllDigits(digits) then
        assert s[|s| - 1] == digits[|digits| - 1];
        var v: int := if negative then -(DigitsValue(digits) as int) else DigitsValue(digits);
        Some(v)
      else None
  }

  /** Decimal digits of a natural number, without leading zeros. */
  function NatString(n: nat): (d: string)
    ensures d != "" && AllDigits(d)
  {
    var last := ['0' + ((n % 10) as char)];
    assert IsDigit(last[0]);
    if n < 10 then last else NatString(n / 10) + last
  }

  /** Decimal rendering of an integer, with '-' for negatives. */
  function IntString(n: int): string {
    if n < 0 then "-" + NatString(-n) else NatString(n)
  }

  lemma {:induction false} NatStringValue(n: nat)
    ensures DigitsValue(NatString(n)) == n
  {
    var d := NatString(n);
    if n >= 10 {
      NatStringValue(n / 10);
      assert d[..|d| - 1] == NatString(n / 10);
    }
  }

  /** Coercion reads back every integer from its decimal rendering. */
  lemma NumberOfIntString(n: int)
    ensures NumberOf(IntString(n)) == Some(n)
  {
    if n < 0 {
      NatStringValue(-n);
      assert IntString(n)[1..] == NatString(-n);
    } else {
      NatStringValue(n);
      assert IntString(n)[0] in NatString(n);
    }
  }
}
