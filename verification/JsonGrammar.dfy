/** The grammar of JSON texts on strings, as RFC 8259 gives it, with UTF-8 as in RFC 3629.

    Nothing here mentions the parser: every rule says which slices of a string are what.
 */
module JsonGrammar {

  // ----- section 2 of RFC 8259: blanks

  predicate Ws(s: string) {
    forall i :: 0 <= i < |s| ==> s[i] == ' ' || s[i] == '\t' || s[i] == '\n' || s[i] == '\r'
  }

  // ----- section 6: numbers

  predicate Digit(c: char) { '0' <= c <= '9' }

  predicate Digits(s: string) { forall i :: 0 <= i < |s| ==> Digit(s[i]) }

  /** `0`, or digits that do not begin with it. */
  predicate Int(s: string) { s == "0" || (s != "" && Digits(s) && s[0] != '0') }

  predicate Frac(s: string) { s == "" || (|s| > 1 && s[0] == '.' && Digits(s[1..])) }

  predicate Exp(s: string) {
    || s == ""
    || ((s[0] == 'e' || s[0] == 'E') &&
        ((|s| > 1 && Digits(s[1..])) || (|s| > 2 && (s[1] == '+' || s[1] == '-') && Digits(s[2..]))))
  }

  /** An optional fraction and an optional exponent. */
  predicate FracExp(s: string) {
    exists j :: 0 <= j <= |s| && Frac(s[..j]) && Exp(s[j..])
  }

  predicate Unsigned(s: string) {
    exists i :: 0 <= i <= |s| && Int(s[..i]) && FracExp(s[i..])
  }

  predicate Number(s: string) {
    Unsigned(s) || (s != "" && s[0] == '-' && Unsigned(s[1..]))
  }

  // ----- section 7: strings

  predicate Unescaped(c: char) { ' ' <= c < 0x80 as char && c != '"' && c != '\\' }

  predicate Between(c: char, lo: int, hi: int) { lo <= c as int <= hi }

  /** A UTF-8 sequence of two to four bytes (section 4 of RFC 3629). */
  predicate Utf8Sequence(s: string) {
    || (|s| == 2 && Between(s[0], 0xC2, 0xDF) && Between(s[1], 0x80, 0xBF))
    || (|s| == 3 && Between(s[2], 0x80, 0xBF) &&
        ((s[0] as int == 0xE0 && Between(s[1], 0xA0, 0xBF)) ||
         (Between(s[0], 0xE1, 0xEC) && Between(s[1], 0x80, 0xBF)) ||
         (s[0] as int == 0xED && Between(s[1], 0x80, 0x9F)) ||
         (Between(s[0], 0xEE, 0xEF) && Between(s[1], 0x80, 0xBF))))
    || (|s| == 4 && Between(s[2], 0x80, 0xBF) && Between(s[3], 0x80, 0xBF) &&
        ((s[0] as int == 0xF0 && Between(s[1], 0x90, 0xBF)) ||
         (Between(s[0], 0xF1, 0xF3) && Between(s[1], 0x80, 0xBF)) ||
         (s[0] as int == 0xF4 && Between(s[1], 0x80, 0x8F))))
  }

  predicate ShortEscape(s: string) {
    |s| == 2 && s[0] == '\\' &&
    (s[1] == '"' || s[1] == '\\' || s[1] == '/' || s[1] == 'b' || s[1] == 'f' || s[1] == 'n' || s[1] == 'r' || s[1] == 't')
  }

  predicate HexDigit(c: char) { Digit(c) || 'a' <= c <= 'f' || 'A' <= c <= 'F' }

  function HexDigitValue(c: char): int
    requires HexDigit(c)
  {
    if Digit(c) then c as int - '0' as int else if 'a' <= c <= 'f' then c as int - 'a' as int + 10 else c as int - 'A' as int + 10
  }

  /** A `\uXXXX` escape. */
  predicate Unit(s: string) {
    |s| == 6 && s[0] == '\\' && s[1] == 'u' && forall i :: 2 <= i < 6 ==> HexDigit(s[i])
  }

  function UnitValue(s: string): int
    requires Unit(s)
  {
    HexDigitValue(s[2]) * 0x1000 + HexDigitValue(s[3]) * 0x100 + HexDigitValue(s[4]) * 0x10 + HexDigitValue(s[5])
  }

  predicate HighSurrogate(v: int) { 0xD800 <= v <= 0xDBFF }

  predicate LowSurrogate(v: int) { 0xDC00 <= v <= 0xDFFF }

  /** A character of a string; an escaped surrogate stands only in a pair. */
  predicate Character(s: string) {
    || (|s| == 1 && Unescaped(s[0]))
    || Utf8Sequence(s)
    || ShortEscape(s)
    || (Unit(s) && !HighSurrogate(UnitValue(s)) && !LowSurrogate(UnitValue(s)))
    || (|s| == 12 && Unit(s[..6]) && Unit(s[6..]) && HighSurrogate(UnitValue(s[..6])) && LowSurrogate(UnitValue(s[6..])))
  }

  predicate Characters(s: string)
    decreases |s|
  {
    s == "" || exists k :: 0 < k <= |s| && Character(s[..k]) && Characters(s[k..])
  }

  predicate StringToken(s: string) {
    |s| >= 2 && s[0] == '"' && s[|s| - 1] == '"' && Characters(s[1..|s| - 1])
  }

  // ----- sections 3 to 5: values

  predicate Literal(s: string) { s == "true" || s == "false" || s == "null" }

  predicate Value(s: string)
    decreases |s|, 0
  {
    || Literal(s) || Number(s) || StringToken(s)
    || (|s| >= 2 && s[0] == '[' && s[|s| - 1] == ']' && (Ws(s[1..|s| - 1]) || Elements(s[1..|s| - 1])))
    || (|s| >= 2 && s[0] == '{' && s[|s| - 1] == '}' && (Ws(s[1..|s| - 1]) || Members(s[1..|s| - 1])))
  }

  /** A value with blanks around it; a whole JSON text. */
  predicate Padded(s: string)
    decreases |s|, 1
  {
    exists a, b :: 0 <= a <= b <= |s| && Ws(s[..a]) && Ws(s[b..]) && Value(s[a..b])
  }

  /** Values separated by commas. */
  predicate Elements(s: string)
    decreases |s|, 2
  {
    Padded(s) || exists i :: 0 <= i < |s| && s[i] == ',' && Padded(s[..i]) && Elements(s[i + 1..])
  }

  /** A name, a colon and a value. */
  predicate NameValue(s: string)
    decreases |s|, 2
  {
    exists a, b, c :: 0 <= a <= b <= c < |s| && s[c] == ':' && Ws(s[..a]) && StringToken(s[a..b]) && Ws(s[b..c]) && Padded(s[c + 1..])
  }

  predicate Members(s: string)
    decreases |s|, 3
  {
    NameValue(s) || exists i :: 0 <= i < |s| && s[i] == ',' && NameValue(s[..i]) && Members(s[i + 1..])
  }
}
