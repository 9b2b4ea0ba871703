/** The value a text reads as: the automaton of `JsonText` with what `json_sax_dom_parser` builds on the way. */
module JsonRead {
  import opened JsonText
  import opened JsonValue

  /** A container that is being filled, with the key its next value goes to. */
  datatype Frame = ArrayFrame(items: seq<Json>) | ObjectFrame(members: seq<Member>, key: string)

  /** The parser's state, the containers it fills, outermost first, the value read at the root, the token
      buffer, and the code units of the `\u` escape and of the first half of its surrogate pair. */
  datatype Reader = Reader(st: State, frames: seq<Frame>, root: Json, buf: string, code: int, high: int)

  const UNREAD := Reader(START, [], Null, "", 0, 0)

  // ----- tokens

  function HexValue(c: char): int {
    if '0' <= c <= '9' then c as int - '0' as int
    else if 'a' <= c <= 'f' then c as int - 'a' as int + 10
    else c as int - 'A' as int + 10
  }

  function Byte(n: int): char { (n % 256) as char }

  /** The UTF-8 bytes of a code point. */
  function Utf8Of(code: int): string {
    if code < 0x80 then [Byte(code)]
    else if code < 0x800 then [Byte(0xC0 + code / 0x40), Byte(0x80 + code % 0x40)]
    else if code < 0x10000 then
      [Byte(0xE0 + code / 0x1000), Byte(0x80 + code / 0x40 % 0x40), Byte(0x80 + code % 0x40)]
    else
      [Byte(0xF0 + code / 0x40000), Byte(0x80 + code / 0x1000 % 0x40), Byte(0x80 + code / 0x40 % 0x40), Byte(0x80 + code % 0x40)]
  }

  function Unescape(c: char): char {
    if c == 'b' then 8 as char
    else if c == 'f' then 12 as char
    else if c == 'n' then '\n'
    else if c == 'r' then '\r'
    else if c == 't' then '\t'
    else c
  }

  /** The code point of a surrogate pair. */
  function Paired(high: int, low: int): int { (high - 0xD800) * 0x400 + (low - 0xDC00) + 0x10000 }

  /** A character that does not end the token, given what the buffers hold. */
  function TakeHex(r: Reader, read: nat, kind: HexKind, second: bool, c: char): Reader {
    var code := r.code * 16 + HexValue(c);
    if read < 3 then r.(code := code)
    else if second then r.(buf := r.buf + Utf8Of(Paired(r.high, code)))
    else if HexKindOf(read, kind, c) == High then r.(high := code)
    else r.(buf := r.buf + Utf8Of(code))
  }

  function TakeInString(r: Reader, s: StrState, c: char): Reader {
    match s
    case Plain => if c == '\\' then r else r.(buf := r.buf + [c])
    case Utf8(_, _, _) => r.(buf := r.buf + [c])
    case Esc => if c == 'u' then r.(code := 0) else r.(buf := r.buf + [Unescape(c)])
    case Hex(read, kind, second) => TakeHex(r, read, kind, second, c)
    case NeedBackslash => r
    case NeedU => r.(code := 0)
  }

  function Take(r: Reader, tok: Token, c: char): Reader {
    if tok.TStr? then TakeInString(r, tok.s, c) else r.(buf := r.buf + [c])
  }

  /** The value of a token; a literal is told by its first character, a number is kept as its text. */
  function TokenValue(tok: Token, buf: string): Json {
    match tok
    case TStr(_) => Str(buf)
    case TNum(_) => Num(buf)
    case TLit(_) => if buf != "" && buf[0] == 't' then Bool(true) else if buf != "" && buf[0] == 'f' then Bool(false) else Null
  }

  // ----- containers

  function With(f: Frame, v: Json): Frame {
    match f
    case ArrayFrame(items) => ArrayFrame(items + [v])
    case ObjectFrame(members, key) => ObjectFrame(Put(members, key, v), key)
  }

  function FrameValue(f: Frame): Json {
    match f
    case ArrayFrame(items) => Array(items)
    case ObjectFrame(members, _) => Object(members)
  }

  function Named(f: Frame, key: string): Frame {
    if f.ObjectFrame? then f.(key := key) else f
  }

  function Top(frames: seq<Frame>): Frame
    requires frames != []
  {
    frames[|frames| - 1]
  }

  function Outer(frames: seq<Frame>): seq<Frame>
    requires frames != []
  {
    frames[..|frames| - 1]
  }

  /** A value goes to the innermost container, or is the root. */
  function Place(r: Reader, v: Json): Reader {
    if r.frames == [] then r.(root := v) else r.(frames := Outer(r.frames) + [With(Top(r.frames), v)])
  }

  function NameMember(r: Reader, key: string): Reader {
    if r.frames == [] then r else r.(frames := Outer(r.frames) + [Named(Top(r.frames), key)])
  }

  function CloseFrame(r: Reader): Reader {
    if r.frames == [] then r else Place(r.(frames := Outer(r.frames)), FrameValue(Top(r.frames)))
  }

  // ----- reading

  /** The token ends here. */
  function Ended(r: Reader): Reader
    requires r.st.mode.In?
  {
    var st := EndToken(r.st.mode.role, r.st.open);
    match r.st.mode.role
    case AsKey => NameMember(r, r.buf).(st := st)
    case AsValue => Place(r, TokenValue(r.st.mode.tok, r.buf)).(st := st)
    case Unexpected(_) => r.(st := st)
  }

  function BetweenRead(r: Reader, c: char): Reader {
    var st := Between(r.st, c);
    if st.mode == Dead || IsSpace(c) then r.(st := st)
    else if c == '{' then r.(st := st, frames := r.frames + [ObjectFrame([], "")])
    else if c == '[' then r.(st := st, frames := r.frames + [ArrayFrame([])])
    else if c == '}' || c == ']' then CloseFrame(r).(st := st)
    else if st.mode.In? then r.(st := st, buf := if c == '"' then "" else [c])
    else r.(st := st)
  }

  function ReadStep(r: Reader, c: char): Reader {
    if r.st.mode.In? then
      match TokStep(r.st.mode.tok, c)
      case TokMore(t) => Take(r, r.st.mode.tok, c).(st := State(In(t, r.st.mode.role), r.st.open))
      case TokEnd => Ended(r)
      case TokEndBefore => BetweenRead(Ended(r), c)
      case TokBad => r.(st := State(Dead, r.st.open))
    else BetweenRead(r, c)
  }

  function ReadRun(r: Reader, s: string): Reader
    decreases |s|
  {
    if s == "" then r else ReadRun(ReadStep(r, s[0]), s[1..])
  }

  /** The end of the input ends a complete number. */
  function SettledReader(r: Reader): Reader {
    if Settled(r.st) == r.st then r else Ended(r)
  }

  /** The value `json::parse` returns for a text that parses. */
  function ReadText(s: string): Json {
    SettledReader(ReadRun(UNREAD, s)).root
  }

  // ----- the reader follows the automaton

  lemma {:induction false} StepFollows(r: Reader, c: char)
    ensures ReadStep(r, c).st == Step(r.st, c)
  {
  }

  lemma {:induction false} ReadFollows(r: Reader, s: string)
    ensures ReadRun(r, s).st == Run(r.st, s)
    decreases |s|
  {
    if s != "" {
      StepFollows(r, s[0]);
      ReadFollows(ReadStep(r, s[0]), s[1..]);
    }
  }

  lemma {:induction false} ReadConcat(r: Reader, a: string, b: string)
    ensures ReadRun(r, a + b) == ReadRun(ReadRun(r, a), b)
    decreases |a|
  {
    if a == "" {
      assert a + b == b;
    } else {
      assert (a + b)[0] == a[0] && (a + b)[1..] == a[1..] + b;
      ReadConcat(ReadStep(r, a[0]), a[1..], b);
    }
  }

  lemma {:induction false} ReadOne(r: Reader, c: char)
    ensures ReadRun(r, [c]) == ReadStep(r, c)
  {
    assert [c][1..] == "";
  }

  // ----- the frames mirror the open containers

  function KindOf(f: Frame): Container { if f.ObjectFrame? then Obj else Arr }

  predicate Mirrors(frames: seq<Frame>, open: seq<Container>) {
    && |frames| == |open|
    && forall i :: 0 <= i < |open| ==> KindOf(frames[i]) == open[i]
  }

  predicate Filled(f: Frame) { FrameValue(f) != Array([]) && FrameValue(f) != Object([]) }

  /** One frame for each open container, and a value in the innermost one after which something may follow. */
  predicate FitsReader(r: Reader) {
    && Fits(r.st) && Mirrors(r.frames, r.st.open)
    && (r.st.mode == After && r.frames != [] ==> Filled(Top(r.frames)))
    && (r.st.mode == NextKey || r.st.mode == FirstKey ==> (Filled(Top(r.frames)) <==> r.st.mode == NextKey))
    && (r.st.mode == FirstElem ==> !Filled(Top(r.frames)))
  }

  lemma {:induction false} PutFills(members: seq<Member>, key: string, v: Json)
    ensures Put(members, key, v) != []
  {
  }

  lemma {:induction false} PlaceFits(r: Reader, v: Json)
    requires Mirrors(r.frames, r.st.open)
    ensures Mirrors(Place(r, v).frames, r.st.open)
    ensures r.frames != [] ==> Filled(Top(Place(r, v).frames))
    ensures r.frames != [] ==> Outer(Place(r, v).frames) == Outer(r.frames) && Top(Place(r, v).frames) == With(Top(r.frames), v)
  {
    if r.frames != [] && Top(r.frames).ObjectFrame? {
      PutFills(Top(r.frames).members, Top(r.frames).key, v);
    }
  }

  lemma {:induction false} EndedFits(r: Reader)
    requires FitsReader(r) && r.st.mode.In?
    ensures FitsReader(Ended(r))
  {
    PlaceFits(r, TokenValue(r.st.mode.tok, r.buf));
  }

  lemma {:induction false} CloseFits(r: Reader)
    requires Mirrors(r.frames, r.st.open) && r.frames != []
    ensures var q := CloseFrame(r);
            Mirrors(q.frames, r.st.open[..|r.st.open| - 1]) && (q.frames != [] ==> Filled(Top(q.frames)))
  {
    PlaceFits(r.(frames := Outer(r.frames), st := r.st.(open := r.st.open[..|r.st.open| - 1])), FrameValue(Top(r.frames)));
  }

  lemma {:induction false} OpeningFits(r: Reader, c: char)
    requires FitsReader(r) && !r.st.mode.In? && (c == '{' || c == '[')
    ensures FitsReader(BetweenRead(r, c))
  {
    StepFits(r.st, c);
  }

  lemma {:induction false} ClosingFits(r: Reader, c: char)
    requires FitsReader(r) && !r.st.mode.In? && (c == '}' || c == ']')
    ensures FitsReader(BetweenRead(r, c))
  {
    StepFits(r.st, c);
    if Between(r.st, c).mode != Dead {
      hide CloseFrame;
      CloseFits(r);
    }
  }

  /** Any other character leaves the frames alone. */
  lemma {:induction false} OtherFits(r: Reader, c: char)
    requires FitsReader(r) && !r.st.mode.In? && c != '{' && c != '[' && c != '}' && c != ']'
    ensures FitsReader(BetweenRead(r, c))
  {
    StepFits(r.st, c);
  }

  lemma {:induction false} BetweenFits(r: Reader, c: char)
    requires FitsReader(r) && !r.st.mode.In?
    ensures FitsReader(BetweenRead(r, c))
  {
    hide FitsReader, BetweenRead;
    if c == '{' || c == '[' {
      OpeningFits(r, c);
    } else if c == '}' || c == ']' {
      ClosingFits(r, c);
    } else {
      OtherFits(r, c);
    }
  }

  lemma {:induction false} StepFitsReader(r: Reader, c: char)
    requires FitsReader(r)
    ensures FitsReader(ReadStep(r, c))
  {
    StepFits(r.st, c);
    StepFollows(r, c);
    if r.st.mode.In? {
      EndedFits(r);
      if TokStep(r.st.mode.tok, c) == TokEndBefore { BetweenFits(Ended(r), c); }
    } else {
      BetweenFits(r, c);
    }
  }

  lemma {:induction false} RunFitsReader(r: Reader, s: string)
    requires FitsReader(r)
    ensures FitsReader(ReadRun(r, s))
    decreases |s|
  {
    if s != "" {
      StepFitsReader(r, s[0]);
      RunFitsReader(ReadStep(r, s[0]), s[1..]);
    }
  }
}
