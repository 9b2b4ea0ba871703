/** `json::parse` returns the value a text means. */
module ReadMeaning {
  import opened JsonText
  import opened JsonValue
  import opened JsonRead
  import opened GrammarStrings
  import DumpRead
  import GrammarTokens
  import GrammarTheorems
  import G = JsonGrammar
  import M = JsonMeaning

  // ----- code points

  lemma {:induction false} ByteIs(n: int)
    requires 0 <= n < 256
    ensures Byte(n) as int == n
  {
  }

  /** The groups of six bits of a code point. */
  lemma {:induction false} Groups(code: nat) returns (top: nat, a: nat, b: nat, c: nat)
    requires code <= 0x10FFFF
    ensures a < 0x40 && b < 0x40 && c < 0x40 && code == ((top * 0x40 + a) * 0x40 + b) * 0x40 + c
    ensures c == code % 0x40 && (top * 0x40 + a) * 0x40 + b == code / 0x40
    ensures b == code / 0x40 % 0x40 && top * 0x40 + a == code / 0x1000
    ensures a == code / 0x1000 % 0x40 && top == code / 0x40000
  {
    var high, mid := code / 0x40, code / 0x1000;
    c, b, a := code % 0x40, high % 0x40, mid % 0x40;
    assert mid == high / 0x40;
    top := mid / 0x40;
    assert top == code / 0x40000;
  }

  predicate Scalar(code: int) { 0 <= code <= 0x10FFFF && !G.HighSurrogate(code) && !G.LowSurrogate(code) }

  lemma {:induction false} Encodes2(code: int)
    requires 0x80 <= code < 0x800
    ensures M.Encodes(code, Utf8Of(code))
  {
    ByteIs(0xC0 + code / 0x40);
    ByteIs(0x80 + code % 0x40);
    hide Byte;
  }

  lemma {:induction false} Encodes3(code: int)
    requires 0x800 <= code < 0x10000 && Scalar(code)
    ensures M.Encodes(code, Utf8Of(code))
  {
    var top, a, b, c := Groups(code);
    ByteIs(0xE0 + code / 0x1000);
    ByteIs(0x80 + b);
    ByteIs(0x80 + c);
    hide Byte;
  }

  lemma {:induction false} Encodes4(code: int)
    requires 0x10000 <= code <= 0x10FFFF
    ensures M.Encodes(code, Utf8Of(code))
  {
    var top, a, b, c := Groups(code);
    ByteIs(0xF0 + top);
    ByteIs(0x80 + a);
    ByteIs(0x80 + b);
    ByteIs(0x80 + c);
    hide Byte;
  }

  /** What the lexer appends for a code point is its UTF-8 form. */
  lemma {:induction false} Utf8Encodes(code: int)
    requires Scalar(code)
    ensures M.Encodes(code, Utf8Of(code))
  {
    if code < 0x80 {
      ByteIs(code);
    } else if code < 0x800 {
      Encodes2(code);
    } else if code < 0x10000 {
      Encodes3(code);
    } else {
      Encodes4(code);
    }
  }

  /** A code point has only one UTF-8 form, and surrogates have none. */
  lemma {:induction false} CodePointOnce(t: string, u: string)
    requires |t| > 0 && |u| > 0 && M.Encodes(M.CodePoint(t), t) && M.Encodes(M.CodePoint(t), u)
    ensures t == u
  {
    FormLength(t);
    FormLength(u);
    if |t| == 1 {
      assert t == [t[0]] && u == [u[0]];
    } else if |t| == 2 {
      assert t == [t[0], t[1]] && u == [u[0], u[1]];
    } else if |t| == 3 {
      assert t == [t[0], t[1], t[2]] && u == [u[0], u[1], u[2]];
    } else {
      assert t == [t[0], t[1], t[2], t[3]] && u == [u[0], u[1], u[2], u[3]];
    }
  }

  lemma {:induction false} FormLength(t: string)
    requires |t| > 0 && M.Encodes(M.CodePoint(t), t)
    ensures var code := M.CodePoint(t);
            |t| == (if code < 0x80 then 1 else if code < 0x800 then 2 else if code < 0x10000 then 3 else 4) && Scalar(code)
  {
  }

  lemma {:induction false} EncodesOnly(code: int, t: string)
    requires M.Encodes(code, t)
    ensures t == Utf8Of(code)
  {
    hide M.CodePoint, Utf8Of;
    FormLength(t);
    Utf8Encodes(code);
    CodePointOnce(t, Utf8Of(code));
  }

  // ----- characters of a string

  /** The reader is inside a string, at `x`. */
  predicate At(r: Reader, x: StrState) { r.st.mode.In? && r.st.mode.tok == TStr(x) }

  /** `q` is `r` with the string at `y` and `t` read in addition. */
  predicate Adds(r: Reader, y: StrState, t: string, q: Reader) {
    && r.st.mode.In? && q.st == State(In(TStr(y), r.st.mode.role), r.st.open)
    && q.frames == r.frames && q.root == r.root && q.buf == r.buf + t
  }

  lemma {:induction false} AddsBoth(r: Reader, x: StrState, a: string, p: Reader, y: StrState, b: string, q: Reader)
    requires Adds(r, x, a, p) && Adds(p, y, b, q)
    ensures Adds(r, y, a + b, q)
  {
    assert r.buf + (a + b) == (r.buf + a) + b;
  }

  lemma {:induction false} ReadSplit(r: Reader, s: string, k: nat)
    requires k <= |s|
    ensures ReadRun(r, s) == ReadRun(ReadRun(r, s[..k]), s[k..])
  {
    assert s == s[..k] + s[k..];
    ReadConcat(r, s[..k], s[k..]);
  }

  lemma {:induction false} Read2(r: Reader, a: char, b: char)
    ensures ReadRun(r, [a, b]) == ReadStep(ReadStep(r, a), b)
  {
    hide ReadStep;
    assert [a, b][1..] == [b];
    ReadOne(ReadStep(r, a), b);
  }

  lemma {:induction false} Read4(r: Reader, s: string)
    requires |s| == 4
    ensures ReadRun(r, s) == ReadStep(ReadStep(ReadStep(ReadStep(r, s[0]), s[1]), s[2]), s[3])
  {
    hide ReadStep;
    ReadSplit(r, s, 2);
    assert s[..2] == [s[0], s[1]] && s[2..] == [s[2], s[3]];
    Read2(r, s[0], s[1]);
    Read2(ReadRun(r, s[..2]), s[2], s[3]);
  }

  /** A character that stands for itself, or a byte of a UTF-8 sequence. */
  predicate Literally(x: StrState, c: char) { x.Utf8? || (x == Plain && c != '\\') }

  lemma {:induction false} ByteReads(r: Reader, x: StrState, c: char)
    requires At(r, x) && Literally(x, c) && StrStep(x, c).StrMore?
    ensures Adds(r, StrStep(x, c).s, [c], ReadStep(r, c))
    ensures StrStep(x, c).s == Plain || StrStep(x, c).s.Utf8?
  {
  }

  lemma {:induction false} BytesRead(r: Reader, x: StrState, s: string)
    requires At(r, x) && (x == Plain || x.Utf8?) && StrRun(x, s).StrMore? && forall i :: 0 <= i < |s| ==> s[i] != '\\'
    ensures Adds(r, StrRun(x, s).s, s, ReadRun(r, s))
    decreases |s|
  {
    hide ReadStep, StrStep;
    if s != "" {
      ByteReads(r, x, s[0]);
      BytesRead(ReadStep(r, s[0]), StrStep(x, s[0]).s, s[1..]);
      AddsBoth(r, StrStep(x, s[0]).s, [s[0]], ReadStep(r, s[0]), StrRun(x, s).s, s[1..], ReadRun(r, s));
      assert [s[0]] + s[1..] == s;
    } else {
      assert r.buf + "" == r.buf;
    }
  }

  lemma {:induction false} ShortReads(r: Reader, c: char, d: char)
    requires At(r, Plain) && M.Escaped(c, d)
    ensures Adds(r, Plain, [d], ReadRun(r, ['\\', c]))
  {
    Read2(r, '\\', c);
  }

  lemma {:induction false} FourRead(r: Reader, second: bool, s: string)
    requires At(r, Hex(0, Fresh, second)) && r.code == 0 && FourHex(s)
    ensures var kind := KindOfTwo(s[0], s[1]); var q := ReadRun(r, s);
            && (second && kind == Low ==> Adds(r, Plain, Utf8Of(Paired(r.high, FourHexValue(s))), q))
            && (!second && kind == High ==> Adds(r, NeedBackslash, "", q) && q.high == FourHexValue(s))
            && (!second && kind != High && kind != Low ==> Adds(r, Plain, Utf8Of(FourHexValue(s)), q))
  {
    Read4(r, s);
    assert r.buf + "" == r.buf;
  }

  lemma {:induction false} BackslashU(r: Reader, x: StrState, second: bool)
    requires At(r, x) && BeforeUnit(x, second)
    ensures var q := ReadRun(r, ['\\', 'u']); Adds(r, Hex(0, Fresh, second), "", q) && q.code == 0 && q.high == r.high
  {
    Read2(r, '\\', 'u');
    assert r.buf + "" == r.buf;
  }

  /** A `\uXXXX` escape: a code point, the first half of a pair, or its second half. */
  lemma {:induction false} UnitReads(r: Reader, x: StrState, second: bool, s: string)
    requires At(r, x) && BeforeUnit(x, second) && G.Unit(s)
    ensures var v := G.UnitValue(s); var q := ReadRun(r, s);
            && (second && G.LowSurrogate(v) ==> Adds(r, Plain, Utf8Of(Paired(r.high, v)), q))
            && (!second && G.HighSurrogate(v) ==> Adds(r, NeedBackslash, "", q) && q.high == v)
            && (!second && !G.HighSurrogate(v) && !G.LowSurrogate(v) ==> Adds(r, Plain, Utf8Of(v), q))
  {
    hide KindOfTwo, FourHexValue, G.HighSurrogate, G.LowSurrogate, Utf8Of, Paired, ReadRun, G.UnitValue, FourHex;
    ReadSplit(r, s, 2);
    assert s[..2] == ['\\', 'u'];
    BackslashU(r, x, second);
    UnitIsHex(s);
    KindIsRange(s[2..]);
    FourRead(ReadRun(r, s[..2]), second, s[2..]);
    AddsAfterNothing(r, Hex(0, Fresh, second), ReadRun(r, s[..2]));
  }

  lemma {:induction false} AddsAfterNothing(r: Reader, x: StrState, p: Reader)
    requires Adds(r, x, "", p)
    ensures forall y, t, q :: Adds(p, y, t, q) ==> Adds(r, y, t, q)
  {
    assert r.buf + "" == r.buf;
  }

  lemma {:induction false} PairReads(r: Reader, s: string)
    requires At(r, Plain) && |s| == 12 && G.Unit(s[..6]) && G.Unit(s[6..])
    requires G.HighSurrogate(G.UnitValue(s[..6])) && G.LowSurrogate(G.UnitValue(s[6..]))
    ensures Adds(r, Plain, Utf8Of(Paired(G.UnitValue(s[..6]), G.UnitValue(s[6..]))), ReadRun(r, s))
  {
    hide G.HighSurrogate, G.LowSurrogate, G.Unit, G.UnitValue, Utf8Of, Paired, ReadRun;
    ReadSplit(r, s, 6);
    UnitReads(r, Plain, false, s[..6]);
    UnitReads(ReadRun(r, s[..6]), NeedBackslash, true, s[6..]);
    AddsAfterNothing(r, NeedBackslash, ReadRun(r, s[..6]));
  }

  /** One character of a string is read as the bytes it stands for. */
  lemma {:induction false} CharReads(r: Reader, s: string, t: string)
    requires At(r, Plain) && M.CharMeans(s, t)
    ensures Adds(r, Plain, t, ReadRun(r, s))
  {
    if |s| == 2 && s[0] == '\\' {
      assert s == ['\\', s[1]] && t == [t[0]];
      ShortReads(r, s[1], t[0]);
    } else if |s| == 6 {
      EncodesOnly(G.UnitValue(s), t);
      UnitReads(r, Plain, false, s);
    } else if |s| == 12 {
      EncodesOnly(Paired(G.UnitValue(s[..6]), G.UnitValue(s[6..])), t);
      PairReads(r, s);
    } else {
      CharacterReads(s);
      BytesRead(r, Plain, s);
    }
  }

  lemma {:induction false} CharsRead(r: Reader, s: string, t: string)
    requires At(r, Plain) && M.CharsMean(s, t)
    ensures Adds(r, Plain, t, ReadRun(r, s))
    decreases |s|
  {
    hide M.CharMeans;
    if s == "" && t == "" {
      assert r.buf + "" == r.buf;
    } else {
      var k, m :| 0 < k <= |s| && 0 <= m <= |t| && M.CharMeans(s[..k], t[..m]) && M.CharsMean(s[k..], t[m..]);
      CharReads(r, s[..k], t[..m]);
      var p := ReadRun(r, s[..k]);
      CharsRead(p, s[k..], t[m..]);
      ReadSplit(r, s, k);
      AddsBoth(r, Plain, t[..m], p, Plain, t[m..], ReadRun(r, s));
      assert t[..m] + t[m..] == t;
    }
  }

  // ----- values

  /** A value is due. */
  predicate Due(r: Reader) {
    (r.st.mode == Value || r.st.mode == FirstElem) && Fits(r.st) && Mirrors(r.frames, r.st.open)
  }

  /** `e` has the frames and the root of `p`, after a value. */
  predicate AfterLike(e: Reader, open: seq<Container>, frames: seq<Frame>, root: Json) {
    e.st == State(After, open) && e.frames == frames && e.root == root
  }

  /** `q` is `r` after the value `j`, which may be a number that has not ended yet. */
  predicate Gets(r: Reader, j: Json, q: Reader) {
    AfterLike(SettledReader(q), r.st.open, Place(r, j).frames, Place(r, j).root)
  }

  lemma {:induction false} TokenStarts(r: Reader, c: char)
    requires Due(r) && StartsToken(c)
    ensures ReadStep(r, c) == r.(st := State(In(TokenFrom(c), AsValue), r.st.open), buf := if c == '"' then "" else [c])
  {
  }

  lemma {:induction false} NumRead(r: Reader, n: NumState, m: NumState, s: string)
    requires r.st.mode == In(TNum(n), AsValue) && GrammarTokens.NumRun(n, s) == NumMore(m)
    ensures ReadRun(r, s) == r.(st := State(In(TNum(m), AsValue), r.st.open), buf := r.buf + s)
    decreases |s|
  {
    if s == "" {
      assert r.buf + "" == r.buf;
    } else {
      NumRead(ReadStep(r, s[0]), NumStep(n, s[0]).n, m, s[1..]);
      assert (r.buf + [s[0]]) + s[1..] == r.buf + s;
    }
  }

  lemma {:induction false} NumberReads(r: Reader, s: string)
    requires Due(r) && G.Number(s)
    ensures Gets(r, Num(s), ReadRun(r, s))
  {
    GrammarTokens.NumberExactly(s);
    TokenStarts(r, s[0]);
    var n := TokenFrom(s[0]).n;
    var m := GrammarTokens.NumRun(n, s[1..]).n;
    NumRead(ReadStep(r, s[0]), n, m, s[1..]);
    assert [s[0]] + s[1..] == s;
  }

  lemma {:induction false} LiteralRead(r: Reader, rest: string)
    requires r.st.mode == In(TLit(rest), AsValue) && rest != "" && r.buf != ""
    ensures AfterLike(ReadRun(r, rest), r.st.open, Place(r, TokenValue(TLit(""), r.buf)).frames, Place(r, TokenValue(TLit(""), r.buf)).root)
    decreases |rest|
  {
    if |rest| > 1 {
      LiteralRead(ReadStep(r, rest[0]), rest[1..]);
    } else {
      assert rest == [rest[0]];
      ReadOne(r, rest[0]);
    }
  }

  lemma {:induction false} LiteralReads(r: Reader, c: char, rest: string)
    requires Due(r) && StartsToken(c) && TokenFrom(c) == TLit(rest) && rest != ""
    ensures Gets(r, TokenValue(TLit(""), [c]), ReadRun(r, [c] + rest))
  {
    ReadSplit(r, [c] + rest, 1);
    ReadOne(r, c);
    assert ([c] + rest)[..1] == [c] && ([c] + rest)[1..] == rest;
    TokenStarts(r, c);
    LiteralRead(ReadStep(r, c), rest);
  }

  lemma {:induction false} QuoteEnds(q: Reader)
    requires At(q, Plain)
    ensures ReadRun(q, ['"']) == Ended(q)
  {
    ReadOne(q, '"');
  }

  /** The rest of a string token, behind its opening quote. */
  lemma {:induction false} QuotedReads(p: Reader, body: string, t: string) returns (q: Reader)
    requires At(p, Plain) && p.buf == "" && M.CharsMean(body, t)
    ensures Adds(p, Plain, t, q) && q.buf == t && ReadRun(p, body + ['"']) == Ended(q)
  {
    hide ReadRun, M.CharsMean, Ended;
    CharsRead(p, body, t);
    ReadConcat(p, body, ['"']);
    q := ReadRun(p, body);
    QuoteEnds(q);
    assert "" + t == t;
  }

  lemma {:induction false} StringParts(s: string, t: string) returns (body: string)
    requires M.StringMeans(s, t)
    ensures s != "" && s[0] == '"' && s[1..] == body + ['"'] && M.CharsMean(body, t)
  {
    hide M.CharsMean, G.Characters;
    body := s[1..|s| - 1];
  }

  lemma {:induction false} ReadCons(r: Reader, s: string)
    requires s != ""
    ensures ReadRun(r, s) == ReadRun(ReadStep(r, s[0]), s[1..])
  {
  }

  lemma {:induction false} StringReads(r: Reader, s: string, t: string)
    requires Due(r) && M.StringMeans(s, t)
    ensures Gets(r, Str(t), ReadRun(r, s))
  {
    hide M.CharsMean, M.StringMeans, ReadRun, ReadStep;
    var body := StringParts(s, t);
    TokenStarts(r, '"');
    ReadCons(r, s);
    var q := QuotedReads(ReadStep(r, '"'), body, t);
  }

  lemma {:induction false} BlanksRead(r: Reader, s: string)
    requires G.Ws(s) && !r.st.mode.In?
    ensures ReadRun(r, s) == r
    decreases |s|
  {
    if s != "" { BlanksRead(r, s[1..]); }
  }

  lemma {:induction false} BlanksAfter(r: Reader, j: Json, q: Reader, s: string)
    requires G.Ws(s) && Gets(r, j, q)
    ensures Gets(r, j, ReadRun(q, s))
  {
    if s != "" {
      BlankEnds(q, s[0]);
      BlanksRead(ReadStep(q, s[0]), s[1..]);
    }
  }

  lemma {:induction false} BlankEnds(q: Reader, c: char)
    requires IsSpace(c) && SettledReader(q).st.mode == After
    ensures ReadStep(q, c) == SettledReader(q) && SettledReader(ReadStep(q, c)) == SettledReader(q)
  {
  }

  lemma {:induction false} ReadParts(r: Reader, s: string, a: nat, b: nat)
    requires a <= b <= |s|
    ensures ReadRun(r, s) == ReadRun(ReadRun(ReadRun(r, s[..a]), s[a..b]), s[b..])
  {
    ReadSplit(r, s, b);
    ReadSplit(r, s[..b], a);
    assert s[..b][..a] == s[..a] && s[..b][a..] == s[a..b];
  }

  // ----- containers

  lemma {:induction false} Opens(r: Reader, c: char)
    requires Due(r) && (c == '[' || c == '{')
    ensures var k := if c == '[' then Arr else Obj; var f := if c == '[' then ArrayFrame([]) else ObjectFrame([], "");
            var p := ReadStep(r, c);
            && p == r.(st := State(if c == '[' then FirstElem else FirstKey, r.st.open + [k]), frames := r.frames + [f])
            && Fits(p.st) && Mirrors(p.frames, p.st.open)
  {
  }

  /** `e` is inside a container opened at `r`, which now is `f` and may be closed. */
  predicate Closable(r: Reader, e: Reader, f: Frame) {
    && e.frames == r.frames + [f] && e.st.open == r.st.open + [KindOf(f)] && e.root == r.root
    && (e.st.mode == After || (e.st.mode == FirstKey && f.ObjectFrame?) || (e.st.mode == FirstElem && f.ArrayFrame?))
  }

  predicate Inside(r: Reader, q: Reader, f: Frame) {
    Closable(r, if Settled(q.st).mode == After then SettledReader(q) else q, f)
  }

  lemma {:induction false} ClosesAt(r: Reader, e: Reader, f: Frame)
    requires Closable(r, e, f)
    ensures Gets(r, FrameValue(f), BetweenRead(e, Bracket(KindOf(f))))
  {
    assert Outer(r.frames + [f]) == r.frames && Top(r.frames + [f]) == f;
    assert e.st.open[..|e.st.open| - 1] == r.st.open;
  }

  lemma {:induction false} BracketReads(r: Reader, q: Reader, f: Frame)
    requires Inside(r, q, f)
    ensures Gets(r, FrameValue(f), ReadStep(q, Bracket(KindOf(f))))
  {
    hide Gets, BetweenRead, SettledReader;
    if Settled(q.st).mode == After {
      DumpRead.AfterStep(q, Bracket(KindOf(f)));
      ClosesAt(r, SettledReader(q), f);
    } else {
      ClosesAt(r, q, f);
    }
  }

  /** An opening bracket, what is inside, and the closing one. */
  lemma {:induction false} ContainerReads(r: Reader, s: string, f: Frame)
    requires Due(r) && |s| >= 2 && (s[0] == '[' || s[0] == '{') && s[|s| - 1] == Bracket(KindOf(f))
    requires Inside(r, ReadRun(ReadStep(r, s[0]), s[1..|s| - 1]), f)
    ensures Gets(r, FrameValue(f), ReadRun(r, s))
  {
    hide Inside, ReadStep, Gets, Due;
    ReadParts(r, s, 1, |s| - 1);
    assert s[..1] == [s[0]] && s[|s| - 1..] == [s[|s| - 1]];
    ReadOne(r, s[0]);
    var q := ReadRun(ReadStep(r, s[0]), s[1..|s| - 1]);
    ReadOne(q, s[|s| - 1]);
    BracketReads(r, q, f);
  }

  /** The comma after a value in `f`. */
  lemma {:induction false} CommaReads(q: Reader, open: seq<Container>, outer: seq<Frame>, f: Frame, root: Json)
    requires AfterLike(SettledReader(q), open, outer + [f], root) && Mirrors(outer + [f], open)
    ensures var p := ReadStep(q, ',');
            p.st == State(if f.ObjectFrame? then NextKey else Value, open) && p.frames == outer + [f] && p.root == root
  {
    DumpRead.AfterStep(q, ',');
    assert Top(outer + [f]) == f;
    assert KindOf((outer + [f])[|outer|]) == open[|open| - 1];
  }

  /** The value goes to the innermost container. */
  lemma {:induction false} PlaceInner(r: Reader, outer: seq<Frame>, f: Frame, j: Json)
    requires r.frames == outer + [f]
    ensures Place(r, j).frames == outer + [With(f, j)] && Place(r, j).root == r.root
  {
    assert Outer(outer + [f]) == outer && Top(outer + [f]) == f;
  }

  lemma {:induction false} SameKinds(outer: seq<Frame>, f: Frame, g: Frame, open: seq<Container>)
    requires Mirrors(outer + [f], open) && KindOf(f) == KindOf(g)
    ensures Mirrors(outer + [g], open)
  {
    assert forall i :: 0 <= i < |open| ==> KindOf((outer + [g])[i]) == KindOf((outer + [f])[i]);
  }

  // ----- the value a text means is the value read

  lemma {:induction false} LiteralMeant(r: Reader, s: string, j: Json)
    requires Due(r) && (j.Null? || j.Bool?) && M.ValueMeans(s, j)
    ensures Gets(r, j, ReadRun(r, s))
  {
    assert "null" == ['n'] + "ull" && "true" == ['t'] + "rue" && "false" == ['f'] + "alse";
    if j == Null {
      LiteralReads(r, 'n', "ull");
    } else if j == Bool(true) {
      LiteralReads(r, 't', "rue");
    } else {
      LiteralReads(r, 'f', "alse");
    }
  }

  lemma {:induction false} ValueReads(r: Reader, s: string, j: Json)
    requires Due(r) && M.ValueMeans(s, j)
    ensures Gets(r, j, ReadRun(r, s))
    decreases |s|, 0
  {
    hide Gets, Due;
    match j {
      case Null => LiteralMeant(r, s, j);
      case Bool(_) => LiteralMeant(r, s, j);
      case Num(text) => NumberReads(r, s);
      case Str(t) => StringReads(r, s, t);
      case Array(items) => ArrayReads(r, s, items);
      case Object(members) => ObjectReads(r, s, members);
    }
  }

  lemma {:induction false} PaddedReads(r: Reader, s: string, j: Json)
    requires Due(r) && M.PaddedMeans(s, j)
    ensures Gets(r, j, ReadRun(r, s))
    decreases |s|, 1
  {
    hide M.ValueMeans, Gets, ReadStep;
    var a, b :| 0 <= a <= b <= |s| && G.Ws(s[..a]) && G.Ws(s[b..]) && M.ValueMeans(s[a..b], j);
    ReadParts(r, s, a, b);
    BlanksRead(r, s[..a]);
    ValueReads(r, s[a..b], j);
    BlanksAfter(r, j, ReadRun(r, s[a..b]), s[b..]);
  }

  lemma {:induction false} ArrayReads(r: Reader, s: string, items: seq<Json>)
    requires Due(r) && M.ValueMeans(s, Array(items))
    ensures Gets(r, Array(items), ReadRun(r, s))
    decreases |s|, 0, 0
  {
    var body := s[1..|s| - 1];
    Opens(r, '[');
    var p := ReadStep(r, '[');
    if items == [] {
      BlanksRead(p, body);
    } else {
      ElementsRead(p, r.frames, [], body, items);
      assert [] + items == items;
      AfterIsIn(ReadRun(p, body));
    }
    ContainerReads(r, s, ArrayFrame(items));
  }

  lemma {:induction false} AfterIsIn(q: Reader)
    requires SettledReader(q).st.mode == After
    ensures Settled(q.st).mode == After
  {
  }

  /** Reading elements into an array that holds `done`. */
  lemma {:induction false} ElementsRead(r: Reader, outer: seq<Frame>, done: seq<Json>, s: string, items: seq<Json>)
    requires Due(r) && r.frames == outer + [ArrayFrame(done)] && M.ElementsMean(s, items)
    ensures AfterLike(SettledReader(ReadRun(r, s)), r.st.open, outer + [ArrayFrame(done + items)], r.root)
    decreases |s|, 2
  {
    hide ReadStep, ReadRun, SettledReader, M.PaddedMeans, M.ElementsMean, Due, AfterLike, Gets;
    var i := FirstElement(s, items);
    if |items| == 1 {
      PaddedReads(r, s, items[0]);
      LastElement(r, outer, done, ReadRun(r, s), items[0]);
      assert items == [items[0]];
    } else {
      PaddedReads(r, s[..i], items[0]);
      var p := NextElement(r, outer, done, s, i, items[0]);
      ElementsRead(p, outer, done + [items[0]], s[i + 1..], items[1..]);
      assert done + [items[0]] + items[1..] == done + items;
    }
  }

  lemma {:induction false} FirstElement(s: string, items: seq<Json>) returns (i: nat)
    requires M.ElementsMean(s, items)
    ensures items != [] && (|items| == 1 ==> M.PaddedMeans(s, items[0]))
    ensures |items| > 1 ==> i < |s| && s[i] == ',' && M.PaddedMeans(s[..i], items[0]) && M.ElementsMean(s[i + 1..], items[1..])
  {
    hide M.PaddedMeans;
    i := 0;
    if |items| > 1 {
      i :| 0 <= i < |s| && s[i] == ',' && M.PaddedMeans(s[..i], items[0]) && M.ElementsMean(s[i + 1..], items[1..]);
    }
  }

  lemma {:induction false} LastElement(r: Reader, outer: seq<Frame>, done: seq<Json>, q: Reader, j: Json)
    requires r.frames == outer + [ArrayFrame(done)] && Gets(r, j, q)
    ensures AfterLike(SettledReader(q), r.st.open, outer + [ArrayFrame(done + [j])], r.root)
  {
    hide SettledReader;
    PlaceInner(r, outer, ArrayFrame(done), j);
  }

  lemma {:induction false} NextElement(r: Reader, outer: seq<Frame>, done: seq<Json>, s: string, i: nat, j: Json) returns (p: Reader)
    requires Due(r) && r.frames == outer + [ArrayFrame(done)] && i < |s| && s[i] == ',' && Gets(r, j, ReadRun(r, s[..i]))
    ensures Due(p) && p.frames == outer + [ArrayFrame(done + [j])] && p.st.open == r.st.open && p.root == r.root
    ensures ReadRun(r, s) == ReadRun(p, s[i + 1..])
  {
    var q := ReadRun(r, s[..i]);
    p := ReadStep(q, ',');
    ReadParts(r, s, i, i + 1);
    assert s[i..i + 1] == [','];
    ReadOne(q, ',');
    PlaceInner(r, outer, ArrayFrame(done), j);
    SameKinds(outer, ArrayFrame(done), ArrayFrame(done + [j]), r.st.open);
    CommaReads(q, r.st.open, outer, ArrayFrame(done + [j]), r.root);
  }


  // ----- members

  /** `obj[key] = value` is the addition of a member. */
  lemma {:induction false} AddedIsPut(before: seq<Member>, x: Member, after: seq<Member>)
    requires M.Added(before, x, after)
    ensures Put(before, x.key, x.value) == after
    decreases |before|
  {
    if forall i :: 0 <= i < |before| ==> before[i].key != x.key {
      PutNew(before, x.key, x.value);
    } else {
      var i :| 0 <= i < |before| && before[i].key == x.key && (forall k :: 0 <= k < i ==> before[k].key != x.key) && after == before[i := x];
      PutAt(before, x, i);
    }
  }

  lemma {:induction false} PutAt(before: seq<Member>, x: Member, i: nat)
    requires i < |before| && before[i].key == x.key && forall k :: 0 <= k < i ==> before[k].key != x.key
    ensures Put(before, x.key, x.value) == before[i := x]
    decreases i
  {
    if i == 0 {
      assert before[0 := x] == [x] + before[1..];
    } else {
      PutAt(before[1..], x, i - 1);
      assert before[i := x] == [before[0]] + before[1..][i - 1 := x];
    }
  }

  /** The addition can always be made, in one way. */
  lemma {:induction false} PutIsAdded(before: seq<Member>, x: Member)
    ensures M.Added(before, x, Put(before, x.key, x.value))
  {
    if forall i :: 0 <= i < |before| ==> before[i].key != x.key {
      PutNew(before, x.key, x.value);
    } else {
      var i := FirstWith(before, x.key);
      PutAt(before, x, i);
    }
  }

  lemma {:induction false} FirstWith(members: seq<Member>, key: string) returns (i: nat)
    requires exists k :: 0 <= k < |members| && members[k].key == key
    ensures i < |members| && members[i].key == key && forall k :: 0 <= k < i ==> members[k].key != key
  {
    i := 0;
    while members[i].key != key
      invariant i < |members| && forall k :: 0 <= k < i ==> members[k].key != key
      decreases |members| - i
    {
      i := i + 1;
    }
  }

  /** A key may come here, in an object that holds `done`. */
  predicate KeyDue(r: Reader, outer: seq<Frame>, done: seq<Member>) {
    && (r.st.mode == FirstKey || r.st.mode == NextKey) && Fits(r.st) && Mirrors(r.frames, r.st.open)
    && r.frames != [] && Top(r.frames).ObjectFrame? && r.frames == outer + [ObjectFrame(done, Top(r.frames).key)]
  }

  lemma {:induction false} KeyReads(r: Reader, outer: seq<Frame>, done: seq<Member>, s: string, key: string)
    requires KeyDue(r, outer, done) && M.StringMeans(s, key)
    ensures var p := ReadRun(r, s); p.st == State(Colon, r.st.open) && p.frames == outer + [ObjectFrame(done, key)] && p.root == r.root
  {
    hide M.CharsMean, M.StringMeans, ReadRun;
    var body := StringParts(s, key);
    ReadCons(r, s);
    var p := ReadStep(r, '"');
    assert p == r.(st := State(In(TStr(Plain), AsKey), r.st.open), buf := "");
    hide ReadStep;
    var q := QuotedReads(p, body, key);
    assert Outer(r.frames) == outer;
  }

  lemma {:induction false} ColonReads(r: Reader, outer: seq<Frame>, done: seq<Member>, key: string, open: seq<Container>)
    requires r.st == State(Colon, open) && r.frames == outer + [ObjectFrame(done, key)] && Mirrors(r.frames, open)
    ensures ReadStep(r, ':') == r.(st := State(Value, open)) && Due(ReadStep(r, ':'))
  {
  }

  lemma {:induction false} NameParts(r: Reader, s: string, a: nat, b: nat, c: nat)
    requires a <= b <= c < |s|
    ensures ReadRun(r, s) == ReadRun(ReadRun(ReadRun(ReadRun(ReadRun(r, s[..a]), s[a..b]), s[b..c]), [s[c]]), s[c + 1..])
  {
    hide ReadRun;
    ReadParts(r, s, c, c + 1);
    assert s[c..c + 1] == [s[c]];
    ReadParts(r, s[..c], a, b);
    assert s[..c][..a] == s[..a] && s[..c][a..b] == s[a..b] && s[..c][b..] == s[b..c];
  }

  lemma {:induction false} NameReads(r: Reader, outer: seq<Frame>, done: seq<Member>, s: string, a: nat, b: nat, c: nat, key: string)
    returns (p: Reader)
    requires KeyDue(r, outer, done) && a <= b <= c < |s|
    requires s[c] == ':' && G.Ws(s[..a]) && M.StringMeans(s[a..b], key) && G.Ws(s[b..c])
    ensures Due(p) && p.st.open == r.st.open && p.frames == outer + [ObjectFrame(done, key)] && p.root == r.root
    ensures ReadRun(r, s) == ReadRun(p, s[c + 1..])
  {
    hide M.StringMeans, ReadRun, ReadStep, G.Ws;
    NameParts(r, s, a, b, c);
    BlanksRead(r, s[..a]);
    KeyReads(r, outer, done, s[a..b], key);
    var q := ReadRun(r, s[a..b]);
    BlanksRead(q, s[b..c]);
    ReadOne(q, ':');
    SameKinds(outer, ObjectFrame(done, Top(r.frames).key), ObjectFrame(done, key), r.st.open);
    ColonReads(q, outer, done, key, r.st.open);
    p := ReadStep(q, ':');
  }

  /** `q` is `r` after a value in its object, which now has `members`. */
  predicate Members(q: Reader, r: Reader, outer: seq<Frame>, members: seq<Member>) {
    var e := SettledReader(q);
    && e.frames != [] && Top(e.frames).ObjectFrame?
    && AfterLike(e, r.st.open, outer + [ObjectFrame(members, Top(e.frames).key)], r.root)
  }

  lemma {:induction false} NameValueReads(r: Reader, outer: seq<Frame>, done: seq<Member>, s: string, x: Member, after: seq<Member>)
    requires KeyDue(r, outer, done) && M.NameValueMeans(s, x) && M.Added(done, x, after)
    ensures Members(ReadRun(r, s), r, outer, after)
    decreases |s|, 2
  {
    hide M.StringMeans, M.PaddedMeans, M.Added, ReadStep, Put;
    var a, b, c :| 0 <= a <= b <= c < |s| && s[c] == ':' && G.Ws(s[..a]) && M.StringMeans(s[a..b], x.key) && G.Ws(s[b..c]) && M.PaddedMeans(s[c + 1..], x.value);
    var p := NameReads(r, outer, done, s, a, b, c, x.key);
    PaddedReads(p, s[c + 1..], x.value);
    hide ReadRun;
    PlaceInner(p, outer, ObjectFrame(done, x.key), x.value);
    AddedIsPut(done, x, after);
    assert Top(outer + [ObjectFrame(after, x.key)]) == ObjectFrame(after, x.key);
  }

  lemma {:induction false} NextMember(r: Reader, outer: seq<Frame>, s: string, i: nat, mid: seq<Member>) returns (p: Reader)
    requires i < |s| && s[i] == ',' && Members(ReadRun(r, s[..i]), r, outer, mid)
    requires r.frames != [] && Top(r.frames).ObjectFrame? && Outer(r.frames) == outer && Mirrors(r.frames, r.st.open)
    ensures KeyDue(p, outer, mid) && p.st.open == r.st.open && p.root == r.root && ReadRun(r, s) == ReadRun(p, s[i + 1..])
  {
    hide ReadRun, ReadStep, Members, SettledReader, AfterLike, Fits;
    var q := ReadRun(r, s[..i]);
    p := ReadStep(q, ',');
    ReadParts(r, s, i, i + 1);
    assert s[i..i + 1] == [','];
    ReadOne(q, ',');
    var f := ObjectAfter(q, r, outer, mid);
    assert r.frames == outer + [Top(r.frames)];
    SameKinds(outer, Top(r.frames), f, r.st.open);
    CommaReads(q, r.st.open, outer, f, r.root);
    KeyNext(p, outer, f, r.st.open);
  }

  lemma {:induction false} ObjectAfter(q: Reader, r: Reader, outer: seq<Frame>, members: seq<Member>) returns (f: Frame)
    requires Members(q, r, outer, members)
    ensures f.ObjectFrame? && f.members == members && AfterLike(SettledReader(q), r.st.open, outer + [f], r.root)
  {
    f := ObjectFrame(members, Top(SettledReader(q).frames).key);
  }

  lemma {:induction false} KeyNext(p: Reader, outer: seq<Frame>, f: Frame, open: seq<Container>)
    requires p.st == State(NextKey, open) && p.frames == outer + [f] && f.ObjectFrame? && Mirrors(outer + [f], open)
    ensures KeyDue(p, outer, f.members)
  {
    assert Top(outer + [f]) == f && KindOf((outer + [f])[|outer|]) == open[|open| - 1];
  }

  /** Reading members into an object that holds `before`. */
  lemma {:induction false} MembersRead(r: Reader, outer: seq<Frame>, before: seq<Member>, s: string, after: seq<Member>)
    requires KeyDue(r, outer, before) && M.MembersMean(s, before, after)
    ensures Members(ReadRun(r, s), r, outer, after)
    decreases |s|, 3
  {
    hide ReadRun, M.NameValueMeans, M.Added;
    if x :| M.NameValueMeans(s, x) && M.Added(before, x, after) {
      NameValueReads(r, outer, before, s, x, after);
    } else {
      var i, x, mid :| 0 <= i < |s| && s[i] == ',' && M.NameValueMeans(s[..i], x) && M.Added(before, x, mid) && M.MembersMean(s[i + 1..], mid, after);
      NameValueReads(r, outer, before, s[..i], x, mid);
      assert Outer(r.frames) == outer;
      var p := NextMember(r, outer, s, i, mid);
      MembersRead(p, outer, mid, s[i + 1..], after);
    }
  }

  lemma {:induction false} ObjectReads(r: Reader, s: string, members: seq<Member>)
    requires Due(r) && M.ValueMeans(s, Object(members))
    ensures Gets(r, Object(members), ReadRun(r, s))
    decreases |s|, 0, 0
  {
    var body := s[1..|s| - 1];
    Opens(r, '{');
    var p := ReadStep(r, '{');
    var f := ObjectFrame(members, "");
    if members == [] {
      BlanksRead(p, body);
    } else {
      assert Top(r.frames + [ObjectFrame([], "")]) == ObjectFrame([], "");
      MembersRead(p, r.frames, [], body, members);
      AfterIsIn(ReadRun(p, body));
      f := Top(SettledReader(ReadRun(p, body)).frames);
    }
    ContainerReads(r, s, f);
  }

  /** A text with a meaning parses, and is read as what it means. */
  lemma {:induction false} TextReads(s: string, j: Json)
    requires M.PaddedMeans(s, j)
    ensures CanParse(s) && ReadText(s) == j
  {
    PaddedReads(UNREAD, s, j);
    ReadFollows(UNREAD, s);
    SettledFollows(ReadRun(UNREAD, s));
  }

  lemma {:induction false} SettledFollows(q: Reader)
    ensures SettledReader(q).st == Settled(q.st)
  {
  }

  // ----- every text of the grammar has a meaning

  lemma {:induction false} UnitRange(s: string)
    requires G.Unit(s)
    ensures 0 <= G.UnitValue(s) < 0x10000
  {
    DigitRange(s[2]);
    DigitRange(s[3]);
    DigitRange(s[4]);
    DigitRange(s[5]);
    hide G.HexDigitValue;
  }

  lemma {:induction false} EscapeHasMeaning(c: char) returns (d: char)
    requires G.ShortEscape(['\\', c])
    ensures M.Escaped(c, d)
  {
    d := Unescape(c);
  }

  lemma {:induction false} CharHasMeaning(s: string) returns (t: string)
    requires G.Character(s)
    ensures M.CharMeans(s, t)
  {
    if |s| == 2 && s[0] == '\\' {
      assert s == ['\\', s[1]];
      var d := EscapeHasMeaning(s[1]);
      t := [d];
    } else if |s| == 6 {
      UnitRange(s);
      Utf8Encodes(G.UnitValue(s));
      t := Utf8Of(G.UnitValue(s));
    } else if |s| == 12 {
      var code := Paired(G.UnitValue(s[..6]), G.UnitValue(s[6..]));
      Utf8Encodes(code);
      t := Utf8Of(code);
    } else {
      t := s;
    }
  }

  lemma {:induction false} CharsHaveMeaning(s: string) returns (t: string)
    requires G.Characters(s)
    ensures M.CharsMean(s, t)
    decreases |s|
  {
    hide M.CharMeans, G.Character;
    if s == "" {
      t := "";
    } else {
      var k :| 0 < k <= |s| && G.Character(s[..k]) && G.Characters(s[k..]);
      var a := CharHasMeaning(s[..k]);
      var b := CharsHaveMeaning(s[k..]);
      t := a + b;
      assert t[..|a|] == a && t[|a|..] == b;
    }
  }

  lemma {:induction false} StringHasMeaning(s: string) returns (t: string)
    requires G.StringToken(s)
    ensures M.StringMeans(s, t)
  {
    t := CharsHaveMeaning(s[1..|s| - 1]);
  }

  lemma {:induction false} ValueHasMeaning(s: string) returns (j: Json)
    requires G.Value(s)
    ensures M.ValueMeans(s, j)
    decreases |s|, 0
  {
    hide G.Number, G.StringToken, M.StringMeans, M.ElementsMean, M.MembersMean, G.Elements, G.Members, G.Ws;
    if G.Literal(s) {
      j := if s == "null" then Null else Bool(s == "true");
    } else if G.Number(s) {
      j := Num(s);
    } else if G.StringToken(s) {
      var t := StringHasMeaning(s);
      j := Str(t);
    } else if s[0] == '[' {
      var items := BodyOfArray(s[1..|s| - 1]);
      j := Array(items);
    } else {
      var members := BodyOfObject(s[1..|s| - 1]);
      j := Object(members);
    }
  }

  lemma {:induction false} BodyOfArray(body: string) returns (items: seq<Json>)
    requires G.Ws(body) || G.Elements(body)
    ensures if items == [] then G.Ws(body) else M.ElementsMean(body, items)
    decreases |body|, 3
  {
    if G.Ws(body) { items := []; } else { items := ElementsHaveMeaning(body); }
  }

  lemma {:induction false} BodyOfObject(body: string) returns (members: seq<Member>)
    requires G.Ws(body) || G.Members(body)
    ensures if members == [] then G.Ws(body) else M.MembersMean(body, [], members)
    decreases |body|, 4
  {
    if G.Ws(body) { members := []; } else { members := MembersHaveMeaning(body, []); }
  }

  lemma {:induction false} PaddedHasMeaning(s: string) returns (j: Json)
    requires G.Padded(s)
    ensures M.PaddedMeans(s, j)
    decreases |s|, 1
  {
    hide G.Value, M.ValueMeans;
    var a, b :| 0 <= a <= b <= |s| && G.Ws(s[..a]) && G.Ws(s[b..]) && G.Value(s[a..b]);
    j := ValueHasMeaning(s[a..b]);
  }

  lemma {:induction false} ElementsHaveMeaning(s: string) returns (items: seq<Json>)
    requires G.Elements(s)
    ensures items != [] && M.ElementsMean(s, items)
    decreases |s|, 2
  {
    hide G.Padded, M.PaddedMeans;
    if G.Padded(s) {
      var j := PaddedHasMeaning(s);
      items := [j];
    } else {
      var i :| 0 <= i < |s| && s[i] == ',' && G.Padded(s[..i]) && G.Elements(s[i + 1..]);
      var j := PaddedHasMeaning(s[..i]);
      var rest := ElementsHaveMeaning(s[i + 1..]);
      items := [j] + rest;
      assert items[1..] == rest;
    }
  }

  lemma {:induction false} NameValueHasMeaning(s: string) returns (x: Member)
    requires G.NameValue(s)
    ensures M.NameValueMeans(s, x)
    decreases |s|, 2
  {
    hide G.Padded, M.PaddedMeans, G.StringToken, M.StringMeans;
    var a, b, c :| 0 <= a <= b <= c < |s| && s[c] == ':' && G.Ws(s[..a]) && G.StringToken(s[a..b]) && G.Ws(s[b..c]) && G.Padded(s[c + 1..]);
    var key := StringHasMeaning(s[a..b]);
    var j := PaddedHasMeaning(s[c + 1..]);
    x := Member(key, j);
  }

  lemma {:induction false} MembersHaveMeaning(s: string, before: seq<Member>) returns (after: seq<Member>)
    requires G.Members(s)
    ensures after != [] && M.MembersMean(s, before, after)
    decreases |s|, 3
  {
    hide G.NameValue, M.NameValueMeans, M.Added, Put;
    if G.NameValue(s) {
      var x := NameValueHasMeaning(s);
      after := Put(before, x.key, x.value);
      PutFills(before, x.key, x.value);
      PutIsAdded(before, x);
    } else {
      var i :| 0 <= i < |s| && s[i] == ',' && G.NameValue(s[..i]) && G.Members(s[i + 1..]);
      var x := NameValueHasMeaning(s[..i]);
      var mid := Put(before, x.key, x.value);
      PutIsAdded(before, x);
      after := MembersHaveMeaning(s[i + 1..], mid);
    }
  }

  /** `json::parse` accepts exactly the texts that mean a value, and returns that value. */
  lemma {:induction false} ReadsExactly(s: string, j: Json)
    ensures CanParse(s) && ReadText(s) == j <==> M.PaddedMeans(s, j)
  {
    hide CanParse, ReadText;
    if CanParse(s) {
      GrammarTheorems.ParsesExactly(s);
      var meant := PaddedHasMeaning(s);
      TextReads(s, meant);
    }
    if M.PaddedMeans(s, j) { TextReads(s, j); }
  }
}
