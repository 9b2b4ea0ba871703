/** JSON text as the vendored nlohmann parser reads it: a character automaton with a container stack.

    One `char` stands for one byte of a `std::string`.  The lexical part follows the library's
    `lexer::scan_string`, `scan_number` and `scan_literal`; the rest follows `parser::sax_parse_internal`.
 */
module JsonText {

  datatype Container = Obj | Arr

  // ----- strings

  datatype HexKind = Fresh | SawD | High | Low | Ordinary

  /** Where a string token stands: between characters, after a backslash, inside a `\uXXXX` escape
      (`second` for the low half of a surrogate pair), before that low half, or inside a UTF-8 sequence. */
  datatype StrState =
    | Plain
    | Esc
    | Hex(read: nat, kind: HexKind, second: bool)
    | NeedBackslash
    | NeedU
    | Utf8(lo: char, hi: char, more: nat)

  datatype StrNext = StrMore(s: StrState) | StrClose | StrBad

  predicate IsHex(c: char) {
    '0' <= c <= '9' || 'a' <= c <= 'f' || 'A' <= c <= 'F'
  }

  function HexKindOf(read: nat, kind: HexKind, c: char): HexKind {
    if read == 0 then (if c == 'd' || c == 'D' then SawD else Ordinary)
    else if read == 1 && kind == SawD then
      (if c == '8' || c == '9' || c == 'a' || c == 'b' || c == 'A' || c == 'B' then High
       else if 'c' <= c <= 'f' || 'C' <= c <= 'F' then Low
       else Ordinary)
    else kind
  }

  function HexStep(read: nat, kind: HexKind, second: bool, c: char): StrNext {
    if !IsHex(c) then StrBad
    else
      var k := HexKindOf(read, kind, c);
      if read < 3 then StrMore(Hex(read + 1, k, second))
      else if second then (if k == Low then StrMore(Plain) else StrBad)
      else if k == High then StrMore(NeedBackslash)
      else if k == Low then StrBad
      else StrMore(Plain)
  }

  function PlainStep(c: char): StrNext {
    if c == '"' then StrClose
    else if c == '\\' then StrMore(Esc)
    else if c < ' ' then StrBad
    else if c < 0x80 as char then StrMore(Plain)
    else if c < 0xC2 as char then StrBad
    else if c <= 0xDF as char then StrMore(Utf8(0x80 as char, 0xBF as char, 0))
    else if c == 0xE0 as char then StrMore(Utf8(0xA0 as char, 0xBF as char, 1))
    else if c == 0xED as char then StrMore(Utf8(0x80 as char, 0x9F as char, 1))
    else if c <= 0xEF as char then StrMore(Utf8(0x80 as char, 0xBF as char, 1))
    else if c == 0xF0 as char then StrMore(Utf8(0x90 as char, 0xBF as char, 2))
    else if c <= 0xF3 as char then StrMore(Utf8(0x80 as char, 0xBF as char, 2))
    else if c == 0xF4 as char then StrMore(Utf8(0x80 as char, 0x8F as char, 2))
    else StrBad
  }

  function StrStep(s: StrState, c: char): StrNext {
    match s
    case Plain => PlainStep(c)
    case Esc =>
      if c == 'u' then StrMore(Hex(0, Fresh, false))
      else if c == '"' || c == '\\' || c == '/' || c == 'b' || c == 'f' || c == 'n' || c == 'r' || c == 't' then StrMore(Plain)
      else StrBad
    case Hex(read, kind, second) => HexStep(read, kind, second, c)
    case NeedBackslash => if c == '\\' then StrMore(NeedU) else StrBad
    case NeedU => if c == 'u' then StrMore(Hex(0, Fresh, true)) else StrBad
    case Utf8(lo, hi, more) =>
      if !(lo <= c <= hi) then StrBad
      else if more == 0 then StrMore(Plain)
      else StrMore(Utf8(0x80 as char, 0xBF as char, more - 1))
  }

  // ----- numbers

  datatype NumState = Minus | Zero | Digits | Dot | Fraction | Exponent | ExpSign | ExpDigits

  datatype NumNext = NumMore(n: NumState) | NumDone | NumBad

  predicate IsDigit(c: char) { '0' <= c <= '9' }

  predicate Complete(n: NumState) { n == Zero || n == Digits || n == Fraction || n == ExpDigits }

  function NumStep(n: NumState, c: char): NumNext {
    match n
    case Minus => if c == '0' then NumMore(Zero) else if IsDigit(c) then NumMore(Digits) else NumBad
    case Zero =>
      if c == '.' then NumMore(Dot) else if c == 'e' || c == 'E' then NumMore(Exponent) else NumDone
    case Digits =>
      if IsDigit(c) then NumMore(Digits)
      else if c == '.' then NumMore(Dot)
      else if c == 'e' || c == 'E' then NumMore(Exponent)
      else NumDone
    case Dot => if IsDigit(c) then NumMore(Fraction) else NumBad
    case Fraction =>
      if IsDigit(c) then NumMore(Fraction) else if c == 'e' || c == 'E' then NumMore(Exponent) else NumDone
    case Exponent =>
      if c == '+' || c == '-' then NumMore(ExpSign) else if IsDigit(c) then NumMore(ExpDigits) else NumBad
    case ExpSign => if IsDigit(c) then NumMore(ExpDigits) else NumBad
    case ExpDigits => if IsDigit(c) then NumMore(ExpDigits) else NumDone
  }

  // ----- tokens

  datatype Token = TStr(s: StrState) | TNum(n: NumState) | TLit(rest: string)

  /** What reading one more character does to a token: it goes on, it ends with the character,
      it ended before the character (numbers), or it is malformed. */
  datatype TokNext = TokMore(t: Token) | TokEnd | TokEndBefore | TokBad

  function TokStep(t: Token, c: char): TokNext {
    match t
    case TStr(s) =>
      (match StrStep(s, c)
       case StrMore(s') => TokMore(TStr(s'))
       case StrClose => TokEnd
       case StrBad => TokBad)
    case TNum(n) =>
      (match NumStep(n, c)
       case NumMore(n') => TokMore(TNum(n'))
       case NumDone => TokEndBefore
       case NumBad => TokBad)
    case TLit(rest) =>
      if rest != "" && rest[0] == c then (if |rest| == 1 then TokEnd else TokMore(TLit(rest[1..])))
      else TokBad
  }

  predicate StartsToken(c: char) {
    c == '"' || c == '-' || IsDigit(c) || c == 't' || c == 'f' || c == 'n'
  }

  function TokenFrom(c: char): Token
    requires StartsToken(c)
  {
    if c == '"' then TStr(Plain)
    else if c == '-' then TNum(Minus)
    else if c == '0' then TNum(Zero)
    else if IsDigit(c) then TNum(Digits)
    else if c == 't' then TLit("rue")
    else if c == 'f' then TLit("alse")
    else TLit("ull")
  }

  // ----- the parser

  /** What the parser expects next, or the token it is in and the part that token plays.  A token that
      the grammar does not allow is still read to its end by the lexer before the error is raised. */
  datatype Mode =
    | Value
    | FirstElem
    | FirstKey
    | NextKey
    | Colon
    | After
    | In(tok: Token, role: Role)
    | Dead

  datatype Role = AsKey | AsValue | Unexpected(was: Mode)

  datatype State = State(mode: Mode, open: seq<Container>)

  const START := State(Value, [])

  predicate IsSpace(c: char) { c == ' ' || c == '\t' || c == '\n' || c == '\r' }

  function RoleOf(mode: Mode, c: char): Role {
    if mode == Value || mode == FirstElem then AsValue
    else if (mode == FirstKey || mode == NextKey) && c == '"' then AsKey
    else Unexpected(mode)
  }

  function EndToken(role: Role, open: seq<Container>): State {
    match role
    case AsKey => State(Colon, open)
    case AsValue => State(After, open)
    case Unexpected(_) => State(Dead, open)
  }

  predicate TopIs(open: seq<Container>, k: Container) {
    |open| > 0 && open[|open| - 1] == k
  }

  /** A character read between tokens. */
  function Between(st: State, c: char): State {
    var State(mode, open) := st;
    if mode == Dead || IsSpace(c) then st
    else if c == '{' then
      (if mode == Value || mode == FirstElem then State(FirstKey, open + [Obj]) else State(Dead, open))
    else if c == '[' then
      (if mode == Value || mode == FirstElem then State(FirstElem, open + [Arr]) else State(Dead, open))
    else if c == '}' then
      (if (mode == FirstKey || mode == After) && TopIs(open, Obj) then State(After, open[..|open| - 1]) else State(Dead, open))
    else if c == ']' then
      (if (mode == FirstElem || mode == After) && TopIs(open, Arr) then State(After, open[..|open| - 1]) else State(Dead, open))
    else if c == ':' then
      (if mode == Colon then State(Value, open) else State(Dead, open))
    else if c == ',' then
      (if mode == After && TopIs(open, Obj) then State(NextKey, open)
       else if mode == After && TopIs(open, Arr) then State(Value, open)
       else State(Dead, open))
    else if StartsToken(c) then State(In(TokenFrom(c), RoleOf(mode, c)), open)
    else State(Dead, open)
  }

  function Step(st: State, c: char): State {
    if st.mode.In? then
      match TokStep(st.mode.tok, c)
      case TokMore(t) => State(In(t, st.mode.role), st.open)
      case TokEnd => EndToken(st.mode.role, st.open)
      case TokEndBefore => Between(EndToken(st.mode.role, st.open), c)
      case TokBad => State(Dead, st.open)
    else Between(st, c)
  }

  function Run(st: State, s: string): State
    decreases |s|
  {
    if s == "" then st else Run(Step(st, s[0]), s[1..])
  }

  /** A complete number is only known to have ended when something else, or the end of input, follows. */
  function Settled(st: State): State {
    if st.mode.In? && st.mode.role == AsValue && st.mode.tok.TNum? && Complete(st.mode.tok.n)
    then State(After, st.open)
    else st
  }

  predicate Accept(st: State) {
    st.open == [] && Settled(st).mode == After
  }

  /** `json::parse` succeeds. */
  predicate CanParse(s: string) {
    Accept(Run(START, s))
  }

  // ----- running

  lemma {:induction false} RunConcat(st: State, a: string, b: string)
    ensures Run(st, a + b) == Run(Run(st, a), b)
    decreases |a|
  {
    if a == "" {
      assert a + b == b;
    } else {
      assert (a + b)[0] == a[0] && (a + b)[1..] == a[1..] + b;
      RunConcat(Step(st, a[0]), a[1..], b);
    }
  }

  lemma {:induction false} RunOne(st: State, c: char)
    ensures Run(st, [c]) == Step(st, c)
  {
    assert [c][1..] == "";
  }

  lemma {:induction false} Run2(st: State, a: char, b: char)
    ensures Run(st, [a, b]) == Step(Step(st, a), b)
  {
    assert [a, b][1..] == [b];
    RunOne(Step(st, a), b);
  }

  lemma {:induction false} RunLast(st: State, s: string)
    requires s != ""
    ensures Run(st, s) == Step(Run(st, s[..|s| - 1]), s[|s| - 1])
  {
    assert s == s[..|s| - 1] + [s[|s| - 1]];
    RunConcat(st, s[..|s| - 1], [s[|s| - 1]]);
    RunOne(Run(st, s[..|s| - 1]), s[|s| - 1]);
  }

  lemma {:induction false} DeadStays(st: State, s: string)
    requires st.mode == Dead
    ensures Run(st, s) == st
    decreases |s|
  {
    if s != "" { DeadStays(Step(st, s[0]), s[1..]); }
  }

  /** Inside a token that the grammar does not allow there. */
  predicate Refused(st: State) { st.mode.In? && st.mode.role.Unexpected? }

  predicate Lost(st: State) { st.mode == Dead || Refused(st) }

  lemma {:induction false} LostStays(st: State, s: string)
    requires Lost(st)
    ensures Lost(Run(st, s))
    decreases |s|
  {
    if s != "" { LostStays(Step(st, s[0]), s[1..]); }
  }

  // ----- the shape of reachable states

  predicate IsLiteralRest(rest: string) {
    rest != "" && forall i :: 0 <= i < |rest| ==> 'a' <= rest[i] <= 'z'
  }

  predicate RoleFits(mode: Mode, open: seq<Container>)
  {
    match mode
    case FirstKey => TopIs(open, Obj)
    case NextKey => TopIs(open, Obj)
    case Colon => TopIs(open, Obj)
    case FirstElem => TopIs(open, Arr)
    case In(tok, role) =>
      && (role == AsKey ==> TopIs(open, Obj) && tok.TStr?)
      && (tok.TLit? ==> IsLiteralRest(tok.rest))
      && (tok.TStr? && tok.s.Utf8? ==> 0x80 as char <= tok.s.lo)
      && (role.Unexpected? ==> !role.was.In? && role.was != Dead && role.was != Value && role.was != FirstElem && RoleFits(role.was, open))
    case _ => true
  }

  /** Every state the parser reaches: keys only directly inside objects, and so on. */
  predicate Fits(st: State) { RoleFits(st.mode, st.open) }

  lemma {:induction false} StepFits(st: State, c: char)
    requires Fits(st)
    ensures Fits(Step(st, c))
  {
  }

  lemma {:induction false} RunFits(st: State, s: string)
    requires Fits(st)
    ensures Fits(Run(st, s))
    decreases |s|
  {
    if s != "" {
      StepFits(st, s[0]);
      RunFits(Step(st, s[0]), s[1..]);
    }
  }

  // ----- closing brackets

  function Bracket(k: Container): char { if k == Obj then '}' else ']' }

  /** The brackets that close the open containers, innermost first. */
  function ClosingOf(open: seq<Container>): string {
    if open == [] then "" else [Bracket(open[|open| - 1])] + ClosingOf(open[..|open| - 1])
  }

  predicate IsClosing(s: string) { forall i :: 0 <= i < |s| ==> s[i] == '}' || s[i] == ']' }

  /** A value could have just ended here, or the innermost container is still empty. */
  predicate Ready(st: State) {
    Settled(st).mode == After || st.mode == FirstKey || st.mode == FirstElem
  }

  lemma {:induction false} BracketStep(st: State, c: char)
    requires Fits(st) && (c == '}' || c == ']')
    ensures Ready(st) && st.open != [] && c == Bracket(st.open[|st.open| - 1]) ==> Step(st, c) == State(After, st.open[..|st.open| - 1])
    ensures !(Ready(st) && st.open != [] && c == Bracket(st.open[|st.open| - 1])) ==> !Ready(Step(st, c))
  {
  }

  /** Brackets alone complete a text exactly when a value could have ended and they are the right ones. */
  lemma {:induction false} ClosesExactly(st: State, closing: string)
    requires Fits(st) && IsClosing(closing)
    ensures Accept(Run(st, closing)) <==> Ready(st) && closing == ClosingOf(st.open)
    decreases |closing|
  {
    if closing != "" {
      var c := closing[0];
      BracketStep(st, c);
      StepFits(st, c);
      ClosesExactly(Step(st, c), closing[1..]);
      assert closing == [c] + closing[1..];
    } else if Ready(st) && st.open == [] {
    }
  }
}
