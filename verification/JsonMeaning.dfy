/** What a JSON text means, on the grammar of RFC 8259: which value a text stands for.

    Nothing here mentions the parser; a number is the text it is written as.
 */
module JsonMeaning {
  import opened JsonValue
  import opened JsonGrammar

  // ----- strings

  /** The code point of a well-formed UTF-8 sequence (section 3 of RFC 3629). */
  function CodePoint(t: string): int
    requires |t| > 0
  {
    if |t| == 1 then t[0] as int
    else if |t| == 2 then (t[0] as int - 0xC0) * 0x40 + (t[1] as int - 0x80)
    else if |t| == 3 then (t[0] as int - 0xE0) * 0x1000 + (t[1] as int - 0x80) * 0x40 + (t[2] as int - 0x80)
    else (t[0] as int - 0xF0) * 0x40000 + (t[1] as int - 0x80) * 0x1000 + (t[2] as int - 0x80) * 0x40 + (t[|t| - 1] as int - 0x80)
  }

  /** `t` is `code` in UTF-8. */
  predicate Encodes(code: int, t: string) {
    ((|t| == 1 && t[0] < 0x80 as char) || Utf8Sequence(t)) && CodePoint(t) == code
  }

  /** The character that a backslash and `c` stand for. */
  predicate Escaped(c: char, d: char) {
    || ((c == '"' || c == '\\' || c == '/') && d == c)
    || (c == 'b' && d as int == 0x08)
    || (c == 'f' && d as int == 0x0C)
    || (c == 'n' && d as int == 0x0A)
    || (c == 'r' && d as int == 0x0D)
    || (c == 't' && d as int == 0x09)
  }

  /** The character `s` of a string stands for the bytes `t`. */
  predicate CharMeans(s: string, t: string) {
    Character(s) &&
    if |s| == 2 && s[0] == '\\' then |t| == 1 && Escaped(s[1], t[0])
    else if |s| == 6 then Encodes(UnitValue(s), t)
    else if |s| == 12 then Encodes(0x10000 + (UnitValue(s[..6]) - 0xD800) * 0x400 + (UnitValue(s[6..]) - 0xDC00), t)
    else t == s
  }

  predicate CharsMean(s: string, t: string)
    decreases |s|
  {
    || (s == "" && t == "")
    || exists k, m :: 0 < k <= |s| && 0 <= m <= |t| && CharMeans(s[..k], t[..m]) && CharsMean(s[k..], t[m..])
  }

  predicate StringMeans(s: string, t: string) {
    StringToken(s) && CharsMean(s[1..|s| - 1], t)
  }

  // ----- values

  /** A member that comes later replaces the value of the one with its key, in its place. */
  predicate Added(before: seq<Member>, x: Member, after: seq<Member>) {
    || ((forall i :: 0 <= i < |before| ==> before[i].key != x.key) && after == before + [x])
    || exists i :: 0 <= i < |before| && before[i].key == x.key && (forall k :: 0 <= k < i ==> before[k].key != x.key) && after == before[i := x]
  }

  ghost predicate ValueMeans(s: string, j: Json)
    decreases |s|, 0
  {
    match j
    case Null => s == "null"
    case Bool(b) => s == (if b then "true" else "false")
    case Num(text) => Number(s) && text == s
    case Str(t) => StringMeans(s, t)
    case Array(items) =>
      |s| >= 2 && s[0] == '[' && s[|s| - 1] == ']' &&
      if items == [] then Ws(s[1..|s| - 1]) else ElementsMean(s[1..|s| - 1], items)
    case Object(members) =>
      |s| >= 2 && s[0] == '{' && s[|s| - 1] == '}' &&
      if members == [] then Ws(s[1..|s| - 1]) else MembersMean(s[1..|s| - 1], [], members)
  }

  ghost predicate PaddedMeans(s: string, j: Json)
    decreases |s|, 1
  {
    exists a, b :: 0 <= a <= b <= |s| && Ws(s[..a]) && Ws(s[b..]) && ValueMeans(s[a..b], j)
  }

  ghost predicate ElementsMean(s: string, items: seq<Json>)
    decreases |s|, 2
  {
    || (|items| == 1 && PaddedMeans(s, items[0]))
    || (|items| > 1 && exists i :: 0 <= i < |s| && s[i] == ',' && PaddedMeans(s[..i], items[0]) && ElementsMean(s[i + 1..], items[1..]))
  }

  ghost predicate NameValueMeans(s: string, x: Member)
    decreases |s|, 2
  {
    exists a, b, c :: 0 <= a <= b <= c < |s| && s[c] == ':' && Ws(s[..a]) && StringMeans(s[a..b], x.key) && Ws(s[b..c]) && PaddedMeans(s[c + 1..], x.value)
  }

  /** Reading the members `s` after `before` leaves `after`. */
  ghost predicate MembersMean(s: string, before: seq<Member>, after: seq<Member>)
    decreases |s|, 3
  {
    || (exists x :: NameValueMeans(s, x) && Added(before, x, after))
    || (exists i, x, mid :: 0 <= i < |s| && s[i] == ',' && NameValueMeans(s[..i], x) && Added(before, x, mid) && MembersMean(s[i + 1..], mid, after))
  }
}
