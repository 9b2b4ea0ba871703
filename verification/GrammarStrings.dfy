/** The inside of strings: the scanner stands between characters exactly after characters of the grammar. */
module GrammarStrings {
  import opened JsonText
  import G = JsonGrammar

  /** The state of the string scanner after `t`, or how it stopped before the end of `t`. */
  function StrRun(x: StrState, t: string): StrNext
    decreases |t|
  {
    if t == "" then StrMore(x)
    else match StrStep(x, t[0])
      case StrMore(y) => StrRun(y, t[1..])
      case other => other
  }

  lemma {:induction false} StrConcat(x: StrState, a: string, b: string)
    ensures StrRun(x, a + b) == if StrRun(x, a).StrMore? then StrRun(StrRun(x, a).s, b) else StrRun(x, a)
    decreases |a|
  {
    hide StrStep;
    if a == "" {
      assert a + b == b;
    } else {
      assert (a + b)[0] == a[0] && (a + b)[1..] == a[1..] + b;
      if StrStep(x, a[0]).StrMore? { StrConcat(StrStep(x, a[0]).s, a[1..], b); }
    }
  }

  lemma {:induction false} StrSplit(x: StrState, t: string, k: nat)
    requires k <= |t|
    ensures StrRun(x, t) == if StrRun(x, t[..k]).StrMore? then StrRun(StrRun(x, t[..k]).s, t[k..]) else StrRun(x, t[..k])
  {
    assert t == t[..k] + t[k..];
    StrConcat(x, t[..k], t[k..]);
  }

  lemma {:induction false} StrRun1(x: StrState, a: char)
    ensures StrRun(x, [a]) == StrStep(x, a)
  {
    hide StrStep;
    assert [a][1..] == "";
  }

  /** One step, and the rest of it when there is one. */
  function Then(n: StrNext, c: char): StrNext {
    if n.StrMore? then StrStep(n.s, c) else n
  }

  lemma {:induction false} StrRun2(x: StrState, t: string)
    requires |t| == 2
    ensures StrRun(x, t) == Then(StrStep(x, t[0]), t[1])
  {
    hide StrStep;
    StrSplit(x, t, 1);
    assert t[..1] == [t[0]] && t[1..] == [t[1]];
    StrRun1(x, t[0]);
    if StrStep(x, t[0]).StrMore? { StrRun1(StrStep(x, t[0]).s, t[1]); }
  }

  lemma {:induction false} StrRun3(x: StrState, t: string)
    requires |t| == 3
    ensures StrRun(x, t) == Then(Then(StrStep(x, t[0]), t[1]), t[2])
  {
    hide StrStep;
    StrSplit(x, t, 2);
    assert t[2..] == [t[2]];
    StrRun2(x, t[..2]);
    if StrRun(x, t[..2]).StrMore? { StrRun1(StrRun(x, t[..2]).s, t[2]); }
  }

  lemma {:induction false} StrRun4(x: StrState, t: string)
    requires |t| == 4
    ensures StrRun(x, t) == Then(Then(Then(StrStep(x, t[0]), t[1]), t[2]), t[3])
  {
    hide StrStep;
    StrSplit(x, t, 3);
    assert t[3..] == [t[3]];
    StrRun3(x, t[..3]);
    if StrRun(x, t[..3]).StrMore? { StrRun1(StrRun(x, t[..3]).s, t[3]); }
  }

  // ----- UTF-8 sequences

  /** How many bytes a character takes that begins with `c`, by its first byte. */
  function Utf8Length(c: char): nat {
    if c < 0xC2 as char then 1 else if c <= 0xDF as char then 2 else if c <= 0xEF as char then 3 else 4
  }

  lemma {:induction false} Utf8Exactly(t: string)
    requires t != "" && 0x80 as char <= t[0] && |t| == Utf8Length(t[0])
    ensures StrRun(Plain, t) == StrMore(Plain) <==> G.Utf8Sequence(t)
  {
    if |t| == 1 {
      assert t == [t[0]];
      StrRun1(Plain, t[0]);
    } else if |t| == 2 {
      StrRun2(Plain, t);
    } else if |t| == 3 {
      StrRun3(Plain, t);
    } else {
      StrRun4(Plain, t);
    }
  }

  /** A sequence that is not complete is no character yet. */
  lemma {:induction false} Utf8Short(t: string)
    requires t != "" && 0x80 as char <= t[0] && |t| < Utf8Length(t[0])
    ensures StrRun(Plain, t) != StrMore(Plain)
  {
    if |t| == 1 {
      assert t == [t[0]];
      StrRun1(Plain, t[0]);
    } else if |t| == 2 {
      StrRun2(Plain, t);
    } else {
      StrRun3(Plain, t);
    }
  }

  // ----- escapes

  predicate FourHex(t: string) { |t| == 4 && forall i :: 0 <= i < 4 ==> G.HexDigit(t[i]) }

  function FourHexValue(t: string): int
    requires FourHex(t)
  {
    G.HexDigitValue(t[0]) * 0x1000 + G.HexDigitValue(t[1]) * 0x100 + G.HexDigitValue(t[2]) * 0x10 + G.HexDigitValue(t[3])
  }

  /** The kind of an escape by its first two digits. */
  function KindOfTwo(a: char, b: char): HexKind { HexKindOf(1, HexKindOf(0, Fresh, a), b) }

  lemma {:induction false} KindOfDigits(a: char, b: char)
    requires G.HexDigit(a) && G.HexDigit(b)
    ensures KindOfTwo(a, b) == High <==> G.HexDigitValue(a) == 13 && 8 <= G.HexDigitValue(b) <= 11
    ensures KindOfTwo(a, b) == Low <==> G.HexDigitValue(a) == 13 && 12 <= G.HexDigitValue(b)
  {
  }

  lemma {:induction false} DigitRange(c: char)
    requires G.HexDigit(c)
    ensures 0 <= G.HexDigitValue(c) < 16
  {
  }

  lemma {:induction false} KindIsRange(t: string)
    requires FourHex(t)
    ensures KindOfTwo(t[0], t[1]) == High <==> G.HighSurrogate(FourHexValue(t))
    ensures KindOfTwo(t[0], t[1]) == Low <==> G.LowSurrogate(FourHexValue(t))
  {
    KindOfDigits(t[0], t[1]);
    DigitRange(t[0]);
    DigitRange(t[1]);
    DigitRange(t[2]);
    DigitRange(t[3]);
    hide KindOfTwo, G.HexDigitValue;
  }

  function AfterHex(kind: HexKind, second: bool): StrNext {
    if second then (if kind == Low then StrMore(Plain) else StrBad)
    else if kind == High then StrMore(NeedBackslash)
    else if kind == Low then StrBad
    else StrMore(Plain)
  }

  lemma {:induction false} HexFour(t: string, second: bool)
    requires |t| == 4
    ensures StrRun(Hex(0, Fresh, second), t) == if FourHex(t) then AfterHex(KindOfTwo(t[0], t[1]), second) else StrBad
  {
    StrRun4(Hex(0, Fresh, second), t);
  }

  lemma {:induction false} HexShort(t: string, second: bool)
    requires |t| < 4
    ensures StrRun(Hex(0, Fresh, second), t) == StrBad || (StrRun(Hex(0, Fresh, second), t).StrMore? && StrRun(Hex(0, Fresh, second), t).s.Hex?)
  {
    if |t| == 1 {
      assert t == [t[0]];
      StrRun1(Hex(0, Fresh, second), t[0]);
    } else if |t| == 2 {
      StrRun2(Hex(0, Fresh, second), t);
    } else if |t| == 3 {
      StrRun3(Hex(0, Fresh, second), t);
    }
  }

  lemma {:induction false} UnitIsHex(t: string)
    requires |t| == 6
    ensures G.Unit(t) <==> t[0] == '\\' && t[1] == 'u' && FourHex(t[2..])
    ensures G.Unit(t) ==> G.UnitValue(t) == FourHexValue(t[2..])
  {
    var h := t[2..];
    assert h[0] == t[2] && h[1] == t[3] && h[2] == t[4] && h[3] == t[5];
    if FourHex(h) {
      assert G.HexDigit(h[0]) && G.HexDigit(h[1]) && G.HexDigit(h[2]) && G.HexDigit(h[3]);
    }
  }

  /** From `x`, reading a backslash and a `u` begins a hexadecimal escape. */
  predicate BeforeUnit(x: StrState, second: bool) {
    if second then x == NeedBackslash else x == Plain
  }

  /** An escape with four digits, or the second of a pair. */
  lemma {:induction false} UnitRun(x: StrState, t: string, second: bool)
    requires |t| == 6 && BeforeUnit(x, second)
    requires t[0] == '\\' && t[1] == 'u'
    ensures StrRun(x, t) == StrRun(Hex(0, Fresh, second), t[2..])
  {
    StrSplit(x, t, 2);
    StrRun2(x, t[..2]);
  }

  lemma {:induction false} UnitExactly(x: StrState, t: string, second: bool)
    requires |t| == 6 && BeforeUnit(x, second) && t[0] == '\\' && t[1] == 'u'
    ensures StrRun(x, t) == StrMore(Plain) <==> G.Unit(t) && if second then G.LowSurrogate(G.UnitValue(t)) else !G.HighSurrogate(G.UnitValue(t)) && !G.LowSurrogate(G.UnitValue(t))
    ensures StrRun(x, t) == StrMore(NeedBackslash) <==> !second && G.Unit(t) && G.HighSurrogate(G.UnitValue(t))
    ensures StrRun(x, t) != StrMore(Plain) && StrRun(x, t) != StrMore(NeedBackslash) ==> StrRun(x, t) == StrBad
  {
    hide StrRun, StrStep, G.Unit, G.UnitValue, FourHexValue, HexKindOf, G.HighSurrogate, G.LowSurrogate, KindOfTwo;
    UnitRun(x, t, second);
    HexFour(t[2..], second);
    UnitIsHex(t);
    if FourHex(t[2..]) { KindIsRange(t[2..]); }
  }

  // ----- characters

  lemma {:induction false} Char1(t: string)
    requires |t| == 1
    ensures StrRun(Plain, t) == StrMore(Plain) <==> G.Character(t)
  {
    assert t == [t[0]];
    StrRun1(Plain, t[0]);
  }

  lemma {:induction false} CharUtf8(t: string)
    requires t != "" && 0x80 as char <= t[0]
    ensures G.Character(t) <==> G.Utf8Sequence(t)
    ensures G.Character(t) ==> |t| == Utf8Length(t[0])
  {
  }

  lemma {:induction false} Char2(t: string)
    requires |t| == 2 && t[0] == '\\'
    ensures StrRun(Plain, t) == StrMore(Plain) <==> G.Character(t)
  {
    StrRun2(Plain, t);
  }

  lemma {:induction false} Char6(t: string)
    requires |t| == 6 && t[0] == '\\' && t[1] == 'u'
    ensures StrRun(Plain, t) == StrMore(Plain) <==> G.Character(t)
  {
    UnitExactly(Plain, t, false);
  }

  lemma {:induction false} Char12(t: string)
    requires |t| == 12 && G.Unit(t[..6]) && G.Unit(t[6..])
    requires G.HighSurrogate(G.UnitValue(t[..6])) && G.LowSurrogate(G.UnitValue(t[6..]))
    ensures StrRun(Plain, t) == StrMore(Plain) && G.Character(t)
  {
    UnitExactly(Plain, t[..6], false);
    UnitExactly(NeedBackslash, t[6..], true);
    StrSplit(Plain, t, 6);
  }

  /** Every character of the grammar is read. */
  lemma {:induction false} CharacterReads(t: string)
    requires G.Character(t)
    ensures StrRun(Plain, t) == StrMore(Plain)
  {
    hide StrRun;
    if |t| == 1 {
      Char1(t);
    } else if 0x80 as char <= t[0] {
      CharUtf8(t);
      Utf8Exactly(t);
    } else if |t| == 2 {
      Char2(t);
    } else if |t| == 6 {
      Char6(t);
    } else {
      Char12(t);
    }
  }

  lemma {:induction false} CharactersRead(t: string)
    requires G.Characters(t)
    ensures StrRun(Plain, t) == StrMore(Plain)
    decreases |t|
  {
    if t != "" {
      var k :| 0 < k <= |t| && G.Character(t[..k]) && G.Characters(t[k..]);
      CharacterReads(t[..k]);
      CharactersRead(t[k..]);
      StrSplit(Plain, t, k);
    }
  }

  /** What is read from `x` up to `k` ends between characters again. */
  predicate Stops(t: string, k: nat) {
    0 < k <= |t| && StrRun(Plain, t[..k]) == StrMore(Plain)
  }

  lemma {:induction false} StopsThen(t: string, k: nat)
    requires Stops(t, k)
    ensures StrRun(Plain, t) == StrRun(Plain, t[k..])
  {
    StrSplit(Plain, t, k);
  }

  lemma {:induction false} FirstUtf8(t: string) returns (k: nat)
    requires t != "" && 0x80 as char <= t[0] && StrRun(Plain, t) == StrMore(Plain)
    ensures Stops(t, k) && G.Character(t[..k])
  {
    k := Utf8Length(t[0]);
    if |t| < k {
      Utf8Short(t);
      assert false;
    }
    Utf8Exactly(t[..k]);
    StrSplit(Plain, t, k);
    CharUtf8(t[..k]);
    Utf8Ends(t[..k]);
  }

  /** A whole sequence ends or is refused. */
  lemma {:induction false} Utf8Ends(t: string)
    requires t != "" && 0x80 as char <= t[0] && |t| == Utf8Length(t[0])
    ensures StrRun(Plain, t) == StrMore(Plain) || !StrRun(Plain, t).StrMore?
  {
    if |t| == 1 {
      assert t == [t[0]];
      StrRun1(Plain, t[0]);
    } else if |t| == 2 {
      StrRun2(Plain, t);
    } else if |t| == 3 {
      StrRun3(Plain, t);
    } else {
      StrRun4(Plain, t);
    }
  }

  lemma {:induction false} LoneBackslash(x: StrState, t: string, second: bool)
    requires t != "" && t[0] == '\\' && BeforeUnit(x, second)
    ensures |t| == 1 ==> StrRun(x, t) != StrMore(Plain)
  {
    if |t| == 1 {
      assert t == [t[0]];
      StrRun1(x, t[0]);
    }
  }

  lemma {:induction false} UnitLong(x: StrState, t: string, second: bool)
    requires t != "" && t[0] == '\\' && BeforeUnit(x, second) && (second || (|t| > 1 && t[1] == 'u'))
    requires StrRun(x, t) == StrMore(Plain)
    ensures |t| >= 6 && t[1] == 'u'
  {
    LoneBackslash(x, t, second);
    if |t| > 1 {
      StrSplit(x, t, 2);
      StrRun2(x, t[..2]);
      if |t| < 6 && t[1] == 'u' { HexShort(t[2..], second); }
    }
  }

  lemma {:induction false} SecondUnit(t: string)
    requires StrRun(NeedBackslash, t) == StrMore(Plain)
    ensures |t| >= 6 && StrRun(NeedBackslash, t[..6]) == StrMore(Plain)
    ensures G.Unit(t[..6]) && G.LowSurrogate(G.UnitValue(t[..6]))
  {
    UnitLong(NeedBackslash, t, true);
    UnitExactly(NeedBackslash, t[..6], true);
    StrSplit(NeedBackslash, t, 6);
  }

  lemma {:induction false} FirstUnit(t: string) returns (k: nat)
    requires |t| > 1 && t[0] == '\\' && t[1] == 'u' && StrRun(Plain, t) == StrMore(Plain)
    ensures Stops(t, k) && G.Character(t[..k])
  {
    hide G.Unit, G.UnitValue, G.HighSurrogate, G.LowSurrogate;
    UnitLong(Plain, t, false);
    UnitExactly(Plain, t[..6], false);
    StrSplit(Plain, t, 6);
    k := 6;
    if StrRun(Plain, t[..6]) == StrMore(Plain) {
      Char6(t[..6]);
    } else {
      SecondUnit(t[6..]);
      k := 12;
      assert t[..12][..6] == t[..6] && t[..12][6..] == t[6..][..6];
      Char12(t[..12]);
    }
  }

  lemma {:induction false} FirstEscape(t: string) returns (k: nat)
    requires t != "" && t[0] == '\\' && StrRun(Plain, t) == StrMore(Plain)
    ensures Stops(t, k) && G.Character(t[..k])
  {
    LoneBackslash(Plain, t, false);
    if t[1] == 'u' {
      k := FirstUnit(t);
    } else {
      k := 2;
      StrSplit(Plain, t, 2);
      StrRun2(Plain, t[..2]);
      Char2(t[..2]);
    }
  }

  /** What is read begins with a character. */
  lemma {:induction false} FirstCharacter(t: string) returns (k: nat)
    requires t != "" && StrRun(Plain, t) == StrMore(Plain)
    ensures Stops(t, k) && G.Character(t[..k])
  {
    hide Stops, G.Character;
    if 0x80 as char <= t[0] {
      k := FirstUtf8(t);
    } else if t[0] == '\\' {
      k := FirstEscape(t);
    } else {
      k := FirstPlain(t);
    }
  }

  lemma {:induction false} FirstPlain(t: string) returns (k: nat)
    requires t != "" && t[0] < 0x80 as char && t[0] != '\\' && StrRun(Plain, t) == StrMore(Plain)
    ensures Stops(t, k) && G.Character(t[..k])
  {
    k := 1;
    assert t[..1] == [t[0]];
    StrRun1(Plain, t[0]);
    StrSplit(Plain, t, 1);
    Char1(t[..1]);
  }

  /** The string scanner stands between characters exactly after a series of characters of the grammar. */
  lemma {:induction false} CharactersExactly(t: string)
    ensures StrRun(Plain, t) == StrMore(Plain) <==> G.Characters(t)
    decreases |t|
  {
    if t != "" && StrRun(Plain, t) == StrMore(Plain) {
      var k := FirstCharacter(t);
      StopsThen(t, k);
      CharactersExactly(t[k..]);
    }
    if G.Characters(t) { CharactersRead(t); }
  }
}
