/** String operations of the JavaScript runtime that the screens rely on:
    `String.prototype.trim` and the decimal rendering of an integer id in a template literal. */
module Text {

  /** The characters `trim` removes: WhiteSpace and LineTerminator of ECMA-262
      (sections 12.2 and 12.3 of the 2023 edition), with the Unicode "Zs" category written out. */
  predicate IsJsWhiteSpace(c: char) {
    || c == '\U{0009}' || c == '\U{000B}' || c == '\U{000C}' || c == ' '
    || c == '\U{00A0}' || c == '\U{FEFF}' || c == '\U{1680}'
    || ('\U{2000}' <= c <= '\U{200A}')
    || c == '\U{202F}' || c == '\U{205F}' || c == '\U{3000}'
    || c == '\n' || c == '\r' || c == '\U{2028}' || c == '\U{2029}'
  }

  /** Skips white space from position `i`: the first position at or after `i` that holds no white space,
      or `|s|`. */
  function SkipLeading(s: string, i: nat): (a: nat)
    requires i <= |s|
    ensures i <= a <= |s|
    ensures forall k :: i <= k < a ==> IsJsWhiteSpace(s[k])
    ensures a < |s| ==> !IsJsWhiteSpace(s[a])
    decreases |s| - i
  {
    if i < |s| && IsJsWhiteSpace(s[i]) then SkipLeading(s, i + 1) else i
  }

  /** Skips white space backwards from position `j`, never below `lo`: the least `b` with `lo <= b <= j`
      such that `s[b..j]` is all white space. */
  function SkipTrailing(s: string, lo: nat, j: nat): (b: nat)
    requires lo <= j <= |s|
    ensures lo <= b <= j
    ensures forall k :: b <= k < j ==> IsJsWhiteSpace(s[k])
    ensures b > lo ==> !IsJsWhiteSpace(s[b - 1])
    decreases j
  {
    if j > lo && IsJsWhiteSpace(s[j - 1]) then SkipTrailing(s, lo, j - 1) else j
  }

  /** `s.trim()`: the slice of `s` left after dropping white space from both ends. Everything outside
      the slice is white space; the result is empty exactly when every character of `s` is white space,
      and otherwise it starts and ends with a character that is not. */
  function Trim(s: string): (r: string)
    ensures exists a, b :: 0 <= a <= b <= |s| && r == s[a..b] &&
                           forall i :: 0 <= i < |s| && (i < a || b <= i) ==> IsJsWhiteSpace(s[i])
    ensures r == [] <==> forall i :: 0 <= i < |s| ==> IsJsWhiteSpace(s[i])
    ensures r != [] ==> !IsJsWhiteSpace(r[0]) && !IsJsWhiteSpace(r[|r| - 1])
  {
    var a := SkipLeading(s, 0);
    var b := SkipTrailing(s, a, |s|);
    s[a..b]
  }

  /** The character of a decimal digit. */
  function DigitChar(d: nat): (c: char)
    requires d < 10
    ensures '0' <= c <= '9' && c as int - '0' as int == d
  {
    ('0' as int + d) as char
  }

  /** The decimal digits of `n`, most significant first, without leading zeros. */
  function DecimalDigits(n: nat): (s: string)
    ensures s != []
    ensures forall i :: 0 <= i < |s| ==> '0' <= s[i] <= '9'
    ensures |s| > 1 ==> s[0] != '0'
  {
    if n < 10 then [DigitChar(n)] else DecimalDigits(n / 10) + [DigitChar(n % 10)]
  }

  /** The number a string of decimal digits denotes. */
  function DecimalValue(s: string): int {
    if s == [] then 0 else DecimalValue(s[..|s| - 1]) * 10 + (s[|s| - 1] as int - '0' as int)
  }

  /** Reading the digits back gives the number. */
  lemma {:induction false} DecimalRoundTrip(n: nat)
    ensures DecimalValue(DecimalDigits(n)) == n
  {
    if n >= 10 {
      var s := DecimalDigits(n);
      assert s[..|s| - 1] == DecimalDigits(n / 10);
      DecimalRoundTrip(n / 10);
    }
  }

  /** `${n}` for an integer: a minus sign exactly when `n` is negative, then decimal digits
      with no leading zero. */
  function IntText(n: int): (r: string)
    ensures r != [] && (r[0] == '-' <==> n < 0)
    ensures var start := if n < 0 then 1 else 0;
      start < |r| && (forall i :: start <= i < |r| ==> '0' <= r[i] <= '9') && (|r| > start + 1 ==> r[start] != '0')
  {
    if n < 0 then "-" + DecimalDigits(-n) else DecimalDigits(n)
  }

  /** Reads the text of an integer back. */
  function IntValue(s: string): int {
    if s != [] && s[0] == '-' then -DecimalValue(s[1..]) else DecimalValue(s)
  }

  /** `IntValue` inverts `IntText`, so distinct ids always render as distinct texts. */
  lemma IntTextRoundTrip(n: int)
    ensures IntValue(IntText(n)) == n
  {
    if n < 0 {
      assert IntText(n)[1..] == DecimalDigits(-n);
      DecimalRoundTrip(-n);
    } else {
      DecimalRoundTrip(n);
    }
  }
}
