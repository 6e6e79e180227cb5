/** The JavaScript string primitives the wallet relies on: decimal rendering
    (`String(n)`, `Number.prototype.toString` on two-decimal amounts),
    `parseInt(s, 10)`, the `\s` character class, ASCII `toLowerCase` and
    `String.prototype.includes`. */
module Text {
  import opened Wrappers

  predicate IsDigit(c: char) {
    '0' <= c <= '9'
  }

  function DigitChar(d: nat): (c: char)
    requires d < 10
    ensures IsDigit(c)
  {
    ('0' as int + d) as char
  }

  function DigitValue(c: char): (d: nat)
    requires IsDigit(c)
    ensures d < 10 && DigitChar(d) == c
  {
    c as int - '0' as int
  }

  predicate AllDigits(s: string) {
    forall i :: 0 <= i < |s| ==> IsDigit(s[i])
  }

  /** The value of a string of decimal digits, most significant first. */
  function DigitsValue(s: string): nat
    requires AllDigits(s)
  {
    if s == [] then 0 else DigitsValue(s[..|s| - 1]) * 10 + DigitValue(s[|s| - 1])
  }

  /** `String(n)` for a non-negative integer: its shortest decimal rendering. */
  function NatToString(n: nat): (s: string)
    ensures 0 < |s| && AllDigits(s)
    ensures |s| > 1 ==> s[0] != '0'
  {
    if n < 10 then [DigitChar(n)] else NatToString(n / 10) + [DigitChar(n % 10)]
  }

  /** The rendering denotes the number it renders. */
  lemma {:induction false} NatToStringValue(n: nat)
    ensures DigitsValue(NatToString(n)) == n
  {
    var s := NatToString(n);
    if n >= 10 {
      assert s[..|s| - 1] == NatToString(n / 10);
      NatToStringValue(n / 10);
    }
  }

  /** Distinct numbers render to distinct strings. */
  lemma NatToStringInjective(m: nat, n: nat)
    requires NatToString(m) == NatToString(n)
    ensures m == n
  {
    NatToStringValue(m);
    NatToStringValue(n);
  }

  /** The characters JavaScript's `\s` matches, which are also the ones
      `parseInt` skips (WhiteSpace and LineTerminator of ECMA-262). */
  predicate IsJsWhitespace(c: char) {
    || c == '\t' || c == '\n' || c == '\U{000B}' || c == '\U{000C}' || c == '\r'
    || c == ' ' || c == '\U{00A0}' || c == '\U{1680}'
    || ('\U{2000}' <= c <= '\U{200A}')
    || c == '\U{2028}' || c == '\U{2029}' || c == '\U{202F}' || c == '\U{205F}'
    || c == '\U{3000}' || c == '\U{FEFF}'
  }

  /** The suffix left after dropping the leading whitespace. */
  function TrimStart(s: string): string {
    if |s| > 0 && IsJsWhitespace(s[0]) then TrimStart(s[1..]) else s
  }

  /** The length of the longest prefix made of decimal digits. */
  function LeadingDigits(s: string): (k: nat)
    ensures k <= |s| && AllDigits(s[..k])
    ensures k < |s| ==> !IsDigit(s[k])
  {
    if |s| > 0 && IsDigit(s[0]) then
      var k := 1 + LeadingDigits(s[1..]);
      assert forall i :: 1 <= i < k ==> s[..k][i] == s[1..][..k - 1][i - 1];
      k
    else 0
  }

  /** `parseInt(s, 10)`: skip leading whitespace, accept one sign, then read
      the longest run of digits; `None` stands for `NaN` (no digit at all). */
  function ParseInt(s: string): (r: Option<int>)
  {
    var t := TrimStart(s);
    var negative := |t| > 0 && t[0] == '-';
    var u := if |t| > 0 && (t[0] == '-' || t[0] == '+') then t[1..] else t;
    var k := LeadingDigits(u);
    var magnitude: int := if k == 0 then 0 else DigitsValue(u[..k]);
    if k == 0 then None
    else Some(if negative then -magnitude else magnitude)
  }

  /** `parseInt(String(n), 10) == n`: the numeric ids `String(n)` creates
      parse back to `n`. */
  lemma ParseIntNatToString(n: nat)
    ensures ParseInt(NatToString(n)) == Some(n)
  {
    var s := NatToString(n);
    assert !IsJsWhitespace(s[0]);
    assert TrimStart(s) == s;
    assert LeadingDigits(s) == |s| by {
      LeadingDigitsOfDigits(s);
    }
    assert s[..|s|] == s;
    NatToStringValue(n);
  }

  /** `parseInt` reads a number written by `String(n)` back from the front of
      a longer text, as long as no further digit follows it. */
  lemma ParseIntNatToStringThen(n: nat, rest: string)
    requires rest == [] || !IsDigit(rest[0])
    ensures ParseInt(NatToString(n) + rest) == Some(n)
  {
    var d := NatToString(n);
    var s := d + rest;
    assert s[0] == d[0];
    assert !IsJsWhitespace(s[0]);
    assert TrimStart(s) == s;
    assert LeadingDigits(s) == |d| by {
      LeadingDigitsThen(d, rest);
    }
    assert s[..|d|] == d;
    NatToStringValue(n);
  }

  lemma {:induction false} LeadingDigitsThen(d: string, rest: string)
    requires AllDigits(d)
    requires rest == [] || !IsDigit(rest[0])
    ensures LeadingDigits(d + rest) == |d|
  {
    if |d| > 0 {
      assert (d + rest)[1..] == d[1..] + rest;
      LeadingDigitsThen(d[1..], rest);
    } else {
      assert d + rest == rest;
    }
  }

  lemma {:induction false} LeadingDigitsOfDigits(s: string)
    requires AllDigits(s)
    ensures LeadingDigits(s) == |s|
  {
    if |s| > 0 {
      LeadingDigitsOfDigits(s[1..]);
    }
  }

  /** `toLowerCase`, restricted to the ASCII letters. */
  function ToLower(s: string): (t: string)
    ensures |t| == |s|
    ensures forall i :: 0 <= i < |s| ==>
      t[i] == (if 'A' <= s[i] <= 'Z' then (s[i] as int + 32) as char else s[i])
  {
    if s == [] then []
    else [if 'A' <= s[0] <= 'Z' then (s[0] as int + 32) as char else s[0]] + ToLower(s[1..])
  }

  /** Lower-casing twice is lower-casing once. */
  lemma ToLowerIdempotent(s: string)
    ensures ToLower(ToLower(s)) == ToLower(s)
  {
  }

  /** `hay.includes(needle)`, computed by sliding the needle along. */
  function Includes(hay: string, needle: string): (b: bool)
    decreases |hay|
  {
    if needle <= hay then true
    else if |hay| <= |needle| then false
    else Includes(hay[1..], needle)
  }

  /** `needle` occurs in `hay` at offset `i`. */
  predicate OccursAt(hay: string, needle: string, i: int) {
    0 <= i && i + |needle| <= |hay| && hay[i..i + |needle|] == needle
  }

  /** `needle` occurs in `hay` at some offset. */
  ghost predicate Occurs(hay: string, needle: string) {
    exists i :: OccursAt(hay, needle, i)
  }

  /** `Includes` holds exactly when the needle occurs at some offset. */
  lemma {:induction false} IncludesOccurrence(hay: string, needle: string)
    ensures Includes(hay, needle) <==> exists i :: OccursAt(hay, needle, i)
    decreases |hay|
  {
    if needle <= hay {
      assert OccursAt(hay, needle, 0);
    } else if |hay| <= |needle| {
      forall i ensures !OccursAt(hay, needle, i) {
      }
    } else {
      IncludesOccurrence(hay[1..], needle);
      forall i | 1 <= i && i + |needle| <= |hay|
        ensures OccursAt(hay, needle, i) == OccursAt(hay[1..], needle, i - 1)
      {
        SliceShift(hay, i, |needle|);
      }
      if Includes(hay[1..], needle) {
        var i :| OccursAt(hay[1..], needle, i);
        assert OccursAt(hay, needle, i + 1);
      }
    }
  }

  lemma SliceShift(hay: string, i: int, n: nat)
    requires 1 <= i && i + n <= |hay|
    ensures hay[i..i + n] == hay[1..][i - 1..i - 1 + n]
  {
  }

  /** The empty needle occurs in every string. */
  lemma IncludesEmpty(hay: string)
    ensures Includes(hay, "")
  {
  }
}
