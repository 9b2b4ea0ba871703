/** Healing truncated JSON: `common_json_parse`. */
module PartialJson {
  import opened JsonText
  import opened SaxEvents
  import opened Text

  // ----- character searches on std::string

  predicate IsSpaceC(c: char) {
    c == ' ' || ('\t' <= c <= '\r')
  }

  /** `find_last_not_of(" \n\r\t")`, -1 for npos. */
  function LastNonSpace(s: string): (p: int)
    ensures -1 <= p < |s|
    ensures p >= 0 ==> !IsSpace(s[p])
    ensures forall i :: p < i < |s| ==> IsSpace(s[i])
    decreases |s|
  {
    if s == "" then -1
    else if !IsSpace(s[|s| - 1]) then |s| - 1
    else LastNonSpace(s[..|s| - 1])
  }

  /** `find_last_of(set)`, -1 for npos. */
  function FindLast(s: string, chars: set<char>): (p: int)
    ensures -1 <= p < |s|
    ensures p >= 0 ==> s[p] in chars
    ensures forall i :: p < i < |s| ==> s[i] !in chars
    decreases |s|
  {
    if s == "" then -1
    else if s[|s| - 1] in chars then |s| - 1
    else FindLast(s[..|s| - 1], chars)
  }

  /** Used to detect stops on a number, which may not be complete. */
  predicate WasMaybeNumber(str: string)
    requires LastNonSpace(str) >= 0
  {
    var last := str[LastNonSpace(str)];
    !IsSpaceC(str[|str| - 1]) && (IsDigit(last) || last == '.' || last == 'e' || last == 'E' || last == '-')
  }

  // ----- the healing branches

  datatype Branch =
    | ObjectValue | AfterKey | ObjectOpened | ValueString | ValueEscape | CutToValue
    | ArrayValue | ArrayString | ArrayEscape | ArrayNext | CutToElement
    | NewKey | NextPair | KeyString | KeyEscape | CutToPair

  predicate CutsBack(b: Branch) { b == CutToValue || b == CutToElement || b == CutToPair }

  /** What the branch writes before the marker; with the marker it is `json_dump_marker`. */
  function Lead(b: Branch): string {
    match b
    case AfterKey => ":\""
    case ArrayNext => ",\""
    case NextPair => ",\""
    case ValueString => ""
    case ArrayString => ""
    case KeyString => ""
    case ValueEscape => "\\"
    case ArrayEscape => "\\"
    case KeyEscape => "\\"
    case _ => "\""
  }

  /** What the branch writes between the marker and the closing brackets. */
  function Tail(b: Branch): string {
    match b
    case ObjectOpened => "\": 1"
    case NewKey => "\": 1"
    case NextPair => "\": 1"
    case KeyString => "\": 1"
    case KeyEscape => "\": 1"
    case _ => "\""
  }

  /** Which completions of a text `can_parse` accepts; each is followed by the closing brackets. */
  datatype Tried = Tried(
    nothing: bool,      // closing brackets alone
    one: bool,          // 1
    colonOne: bool,     // : 1
    quote: bool,        // "
    escQuote: bool,     // \"
    commaOne: bool,     // , 1
    pair: bool,         // "": 1
    commaPair: bool,    // ,"": 1
    keyTail: bool,      // ": 1
    escKeyTail: bool)   // \": 1

  function TryAll(str: string, closing: string): Tried {
    Tried(
      CanParse(str + "" + closing), CanParse(str + "1" + closing), CanParse(str + ": 1" + closing),
      CanParse(str + "\"" + closing), CanParse(str + "\\\"" + closing), CanParse(str + ", 1" + closing),
      CanParse(str + "\"\": 1" + closing), CanParse(str + ",\"\": 1" + closing),
      CanParse(str + "\": 1" + closing), CanParse(str + "\\\": 1" + closing))
  }

  /** The chain of conditions, by the top of the listener's stack, the last non-blank character, the last
      character, and whether that may belong to an unfinished number. */
  function Pick(top: Element, last: char, back: char, maybeNumber: bool, can: Tried): Branch {
    match top
    case KEY =>
      if last == ':' && can.one then ObjectValue
      else if can.colonOne then AfterKey
      else if last == '{' && can.nothing then ObjectOpened
      else if can.quote then ValueString
      else if back == '\\' && can.escQuote then ValueEscape
      else CutToValue
    case ARRAY =>
      if (last == ',' || last == '[') && can.one then ArrayValue
      else if can.quote then ArrayString
      else if back == '\\' && can.escQuote then ArrayEscape
      else if !maybeNumber && can.commaOne then ArrayNext
      else CutToElement
    case OBJECT =>
      if (last == '{' && can.nothing) || (last == ',' && can.pair) then NewKey
      else if !maybeNumber && can.commaPair then NextPair
      else if can.keyTail then KeyString
      else if back == '\\' && can.escKeyTail then KeyEscape
      else CutToPair
  }

  /** The branch taken for `str` when the listener's stack is `stack`. */
  function Choose(str: string, stack: seq<Element>, closing: string): Branch
    requires stack != [] && LastNonSpace(str) >= 0
  {
    Pick(stack[|stack| - 1], str[LastNonSpace(str)], str[|str| - 1], WasMaybeNumber(str), TryAll(str, closing))
  }

  function CutChars(b: Branch): set<char> {
    if b == CutToElement then {'[', ','} else {':'}
  }

  /** Where the kept text ends, -1 when a cut-back branch finds no place to cut. */
  function KeepTo(b: Branch, str: string): (p: int)
    ensures -1 <= p <= |str|
  {
    if !CutsBack(b) then |str|
    else if FindLast(str, CutChars(b)) < 0 then -1
    else FindLast(str, CutChars(b)) + 1
  }

  datatype Healing = NoPlace | Healed(kept: string, dumpMarker: string, tail: string) {
    function Text(): string
      requires Healed?
    {
      kept + dumpMarker + tail
    }
  }

  /** The text a branch leaves. */
  function Write(b: Branch, str: string, closing: string, marker: string): Healing {
    if KeepTo(b, str) < 0 then NoPlace
    else Healed(str[..KeepTo(b, str)], Lead(b) + marker, Tail(b) + closing)
  }

  function Heal(str: string, stack: seq<Element>, marker: string): Healing
    requires stack != [] && LastNonSpace(str) >= 0
  {
    Write(Choose(str, stack, ClosingFor(stack)), str, ClosingFor(stack), marker)
  }

  // ----- legal markers

  predicate StaysPlain(s: StrState, m: string)
    decreases |m|
  {
    if m == "" then s == Plain
    else m[0] != '\\' && StrStep(s, m[0]).StrMore? && StaysPlain(StrStep(s, m[0]).s, m[1..])
  }

  /** A non-empty marker of characters legal unescaped in a JSON string. */
  predicate LegalMarker(m: string) { m != "" && StaysPlain(Plain, m) }

  lemma {:induction false} MarkerInString(s: StrState, role: Role, open: seq<Container>, m: string)
    requires StaysPlain(s, m)
    ensures Run(State(In(TStr(s), role), open), m) == State(In(TStr(Plain), role), open)
    decreases |m|
  {
    if m != "" {
      MarkerInString(StrStep(s, m[0]).s, role, open, m[1..]);
    }
  }

  lemma {:induction false} NoQuoteInMarker(s: StrState, m: string)
    requires StaysPlain(s, m) && (s.Utf8? ==> 0x80 as char <= s.lo) && !s.Esc?
    ensures '"' !in m && '\\' !in m
    decreases |m|
  {
    if m != "" {
      NoQuoteInMarker(StrStep(s, m[0]).s, m[1..]);
      assert m == [m[0]] + m[1..];
    }
  }

  // ----- running fixed completions

  lemma {:induction false} Run3(st: State, a: char, b: char, c: char)
    ensures Run(st, [a, b, c]) == Step(Step(Step(st, a), b), c)
  {
    assert [a, b, c][1..] == [b, c];
    Run2(Step(st, a), b, c);
  }

  lemma {:induction false} Run4(st: State, a: char, b: char, c: char, d: char)
    ensures Run(st, [a, b, c, d]) == Step(Step(Step(Step(st, a), b), c), d)
  {
    assert [a, b, c, d][1..] == [b, c, d];
    Run3(Step(st, a), b, c, d);
  }

  /** The completion `": 1`. */
  function QuoteColonOne(st: State): State {
    Step(Step(Step(Step(st, '"'), ':'), ' '), '1')
  }

  predicate InString(st: State) { st.mode.In? && st.mode.tok.TStr? }

  lemma {:induction false} GuardOne(st: State)
    requires Fits(st) && (st.mode == Value || st.mode == FirstElem || st.mode == NextKey || st.mode == Dead || InString(st))
    ensures Ready(Step(st, '1')) <==> st.mode == Value || st.mode == FirstElem
    ensures Step(st, '1').open == st.open
  {
  }

  lemma {:induction false} GuardColonOne(st: State)
    requires Fits(st)
    ensures var r := Step(Step(Step(st, ':'), ' '), '1');
            (Ready(r) <==> st.mode == Colon) && (Ready(r) ==> r.open == st.open)
  {
  }

  lemma {:induction false} GuardQuote(st: State)
    requires Fits(st)
    ensures Ready(Step(st, '"')) <==> st.mode == In(TStr(Plain), AsValue)
    ensures Ready(Step(st, '"')) ==> Step(st, '"').open == st.open
  {
  }

  lemma {:induction false} GuardEscQuote(st: State)
    requires Fits(st)
    ensures var r := Step(Step(st, '\\'), '"');
            (Ready(r) <==> st.mode == In(TStr(Esc), AsValue)) && (Ready(r) ==> r.open == st.open)
  {
  }

  /** What a comma leads to. */
  lemma {:induction false} CommaStep(st: State)
    requires Fits(st)
    ensures var c := Step(st, ',');
            && (c.mode == Value || c.mode == NextKey || c.mode == Dead || InString(c)) && c.open == st.open
            && (c.mode == Value <==> Settled(st).mode == After && TopIs(st.open, Arr))
            && (c.mode == NextKey <==> Settled(st).mode == After && TopIs(st.open, Obj))
            && c.mode != In(TStr(Esc), AsKey)
  {
  }

  lemma {:induction false} SpaceStep(c: State)
    requires c.mode == Value || c.mode == NextKey || c.mode == Dead || InString(c)
    ensures var r := Step(c, ' ');
            (r.mode == Value || r.mode == NextKey || r.mode == Dead || InString(r)) && r.open == c.open
            && (r.mode == Value <==> c.mode == Value)
  {
  }

  lemma {:induction false} GuardCommaOne(st: State)
    requires Fits(st)
    ensures var r := Step(Step(Step(st, ','), ' '), '1');
            (Ready(r) <==> Settled(st).mode == After && TopIs(st.open, Arr)) && (Ready(r) ==> r.open == st.open)
  {
    CommaStep(st);
    StepFits(st, ',');
    SpaceStep(Step(st, ','));
    StepFits(Step(st, ','), ' ');
    GuardOne(Step(Step(st, ','), ' '));
  }

  lemma {:induction false} KeyQuoteStep(st: State)
    requires Fits(st)
    ensures Step(st, '"').mode == Colon <==> st.mode == In(TStr(Plain), AsKey)
    ensures Step(st, '"').mode == Colon ==> Step(st, '"').open == st.open
  {
  }

  lemma {:induction false} GuardKeyTail(st: State)
    requires Fits(st)
    ensures var r := QuoteColonOne(st);
            (Ready(r) <==> st.mode == In(TStr(Plain), AsKey)) && (Ready(r) ==> r.open == st.open)
  {
    StepFits(st, '"');
    GuardColonOne(Step(st, '"'));
    KeyQuoteStep(st);
  }

  lemma {:induction false} GuardEscKeyTail(st: State)
    requires Fits(st)
    ensures var r := QuoteColonOne(Step(st, '\\'));
            (Ready(r) <==> st.mode == In(TStr(Esc), AsKey)) && (Ready(r) ==> r.open == st.open)
  {
    GuardKeyTail(Step(st, '\\'));
    StepFits(st, '\\');
  }

  lemma {:induction false} GuardPair(st: State)
    requires Fits(st)
    ensures var r := QuoteColonOne(Step(st, '"'));
            (Ready(r) <==> st.mode == FirstKey || st.mode == NextKey || st.mode == In(TStr(Esc), AsKey)) && (Ready(r) ==> r.open == st.open)
  {
    StepFits(st, '"');
    GuardKeyTail(Step(st, '"'));
  }

  lemma {:induction false} GuardCommaPair(st: State)
    requires Fits(st)
    ensures var r := QuoteColonOne(Step(Step(st, ','), '"'));
            (Ready(r) <==> Settled(st).mode == After && TopIs(st.open, Obj)) && (Ready(r) ==> r.open == st.open)
  {
    StepFits(st, ',');
    CommaStep(st);
    GuardPair(Step(st, ','));
  }

  // ----- guards and emissions in terms of the state the text ends in

  lemma {:induction false} ClosingForIsClosing(stack: seq<Element>)
    ensures IsClosing(ClosingFor(stack))
  {
    if stack != [] { ClosingForIsClosing(stack[..|stack| - 1]); }
  }

  lemma {:induction false} Completes(str: string, g: string, closing: string)
    requires IsClosing(closing)
    ensures var r := Run(Run(START, str), g);
            CanParse(str + g + closing) <==> Ready(r) && closing == ClosingOf(r.open)
  {
    RunConcat(START, str + g, closing);
    RunConcat(START, str, g);
    RunFits(START, str + g);
    ClosesExactly(Run(START, str + g), closing);
  }

  lemma {:induction false} SpacesKeep(st: State, s: string)
    requires forall i :: 0 <= i < |s| ==> IsSpace(s[i])
    requires !st.mode.In? || st.mode.tok == TStr(Plain)
    ensures Run(st, s) == st || (st.mode.In? && Run(st, s).mode == Dead)
    decreases |s|
  {
    if s != "" {
      if Step(st, s[0]).mode == Dead {
        DeadStays(Step(st, s[0]), s[1..]);
      } else {
        SpacesKeep(Step(st, s[0]), s[1..]);
      }
    }
  }

  /** After a structural character, blanks aside, the state is the one that character leads to. */
  lemma {:induction false} AfterStructural(str: string)
    requires LastNonSpace(str) >= 0
    ensures var c := str[LastNonSpace(str)];
            var st := Run(START, str);
            c == ':' || c == ',' || c == '[' || c == '{' ==>
              || st.mode == Dead
              || (InString(st) && st.mode.tok.s == Plain)
              || st.mode == (match c case ':' => Value case '[' => FirstElem case '{' => FirstKey case _ => if TopIs(st.open, Obj) then NextKey else Value)
  {
    var p := LastNonSpace(str);
    var before := Run(START, str[..p]);
    RunFits(START, str[..p]);
    assert str == str[..p] + ([str[p]] + str[p + 1..]);
    RunConcat(START, str[..p], [str[p]] + str[p + 1..]);
    RunConcat(before, [str[p]], str[p + 1..]);
    RunOne(before, str[p]);
    var c := str[p];
    if c == ':' || c == ',' || c == '[' || c == '{' {
      StructuralStep(before, c);
      SpacesKeep(Step(before, c), str[p + 1..]);
    }
  }

  lemma {:induction false} StructuralStep(st: State, c: char)
    requires Fits(st) && (c == ':' || c == ',' || c == '[' || c == '{')
    ensures var r := Step(st, c);
            || r.mode == Dead
            || (InString(r) && r.mode.tok.s == Plain)
            || r.mode == (match c case ':' => Value case '[' => FirstElem case '{' => FirstKey case _ => if TopIs(r.open, Obj) then NextKey else Value)
  {
  }

  /** The states in which a branch writes text that fits. */
  predicate Suits(b: Branch, st: State) {
    match b
    case ObjectValue => st.mode == Value || st.mode == FirstElem
    case ArrayValue => st.mode == Value || st.mode == FirstElem
    case AfterKey => st.mode == Colon
    case ObjectOpened => st.mode == FirstKey
    case ValueString => st.mode == In(TStr(Plain), AsValue)
    case ArrayString => st.mode == In(TStr(Plain), AsValue)
    case ValueEscape => st.mode == In(TStr(Esc), AsValue)
    case ArrayEscape => st.mode == In(TStr(Esc), AsValue)
    case ArrayNext => Settled(st).mode == After && TopIs(st.open, Arr)
    case NewKey => st.mode == FirstKey || st.mode == NextKey
    case NextPair => Settled(st).mode == After && TopIs(st.open, Obj)
    case KeyString => st.mode == In(TStr(Plain), AsKey)
    case KeyEscape => st.mode == In(TStr(Esc), AsKey)
    case _ => false
  }

  function RoleWritten(b: Branch): Role { if Tail(b) == "\"" then AsValue else AsKey }

  lemma {:induction false} QuoteOpens(b: Branch, st: State)
    requires Fits(st) && Suits(b, st) && Lead(b) == "\""
    ensures Step(st, '"') == State(In(TStr(Plain), RoleWritten(b)), st.open)
  {
  }

  lemma {:induction false} SeparatorThenQuote(b: Branch, st: State)
    requires Fits(st) && Suits(b, st) && |Lead(b)| == 2
    ensures Step(Step(st, Lead(b)[0]), '"') == State(In(TStr(Plain), RoleWritten(b)), st.open)
  {
  }

  lemma {:induction false} EscapeEnds(b: Branch, st: State)
    requires Fits(st) && Suits(b, st) && Lead(b) == "\\"
    ensures Step(st, '\\') == State(In(TStr(Plain), RoleWritten(b)), st.open)
  {
  }

  /** A branch's lead leaves a plain string open, of the kind its tail then ends. */
  lemma {:induction false} LeadOpensString(b: Branch, st: State)
    requires Fits(st) && Suits(b, st)
    ensures Run(st, Lead(b)) == State(In(TStr(Plain), RoleWritten(b)), st.open)
  {
    if Lead(b) == "\"" {
      QuoteOpens(b, st);
      RunOne(st, '"');
    } else if Lead(b) == "\\" {
      EscapeEnds(b, st);
      RunOne(st, '\\');
    } else if |Lead(b)| == 2 {
      SeparatorThenQuote(b, st);
      Run2(st, Lead(b)[0], '"');
      assert Lead(b) == [Lead(b)[0], '"'];
    }
  }

  lemma {:induction false} TailEnds(b: Branch, open: seq<Container>)
    requires RoleWritten(b) == AsKey ==> TopIs(open, Obj)
    ensures var r := Run(State(In(TStr(Plain), RoleWritten(b)), open), Tail(b));
            Ready(r) && r.open == open
  {
    var st := State(In(TStr(Plain), RoleWritten(b)), open);
    if Tail(b) == "\"" {
      RunOne(st, '"');
    } else {
      Run4(st, '"', ':', ' ', '1');
      assert Tail(b) == ['"', ':', ' ', '1'];
    }
  }

  /** From a state the branch suits, its text leads to a point where a value could end, at the same depth. */
  lemma {:induction false} EmissionReady(b: Branch, st: State, m: string)
    requires Fits(st) && Suits(b, st) && LegalMarker(m)
    ensures var r := Run(st, Lead(b) + m + Tail(b));
            Ready(r) && r.open == st.open
  {
    LeadOpensString(b, st);
    MarkerInString(Plain, RoleWritten(b), st.open, m);
    RunConcat(st, Lead(b), m);
    RunConcat(st, Lead(b) + m, Tail(b));
    TailEnds(b, st.open);
  }

  lemma {:induction false} RunCons(st: State, c: char, s: string)
    ensures Run(st, [c] + s) == Run(Step(st, c), s)
  {
    assert ([c] + s)[1..] == s;
  }

  lemma {:induction false} RunPair(st: State)
    ensures Run(st, "\"\": 1") == QuoteColonOne(Step(st, '"'))
  {
    RunCons(st, '"', "\": 1");
    Run4(Step(st, '"'), '"', ':', ' ', '1');
  }

  // ----- each completion the code tries parses exactly from the states below

  predicate Fitting(str: string, cond: bool, closing: string) {
    cond && closing == ClosingOf(Run(START, str).open)
  }

  lemma {:induction false} TryOne(str: string, closing: string)
    requires IsClosing(closing)
    requires LastNonSpace(str) >= 0 && str[LastNonSpace(str)] in {':', ',', '['}
    ensures var st := Run(START, str);
            CanParse(str + "1" + closing) <==> Fitting(str, st.mode == Value || st.mode == FirstElem, closing)
  {
    var st := Run(START, str);
    RunFits(START, str);
    Completes(str, "1", closing);
    AfterStructural(str);
    RunOne(st, '1');
    GuardOne(st);
  }

  lemma {:induction false} TryNothing(str: string, closing: string)
    requires IsClosing(closing)
    ensures var st := Run(START, str);
            CanParse(str + "" + closing) <==> Fitting(str, Ready(st), closing)
  {
    var st := Run(START, str);
    RunFits(START, str);
    Completes(str, "", closing);
  }

  lemma {:induction false} TryColonOne(str: string, closing: string)
    requires IsClosing(closing)
    ensures var st := Run(START, str);
            CanParse(str + ": 1" + closing) <==> Fitting(str, st.mode == Colon, closing)
  {
    var st := Run(START, str);
    RunFits(START, str);
    Completes(str, ": 1", closing);
    Run3(st, ':', ' ', '1');
    GuardColonOne(st);
  }

  lemma {:induction false} TryQuote(str: string, closing: string)
    requires IsClosing(closing)
    ensures var st := Run(START, str);
            CanParse(str + "\"" + closing) <==> Fitting(str, st.mode == In(TStr(Plain), AsValue), closing)
  {
    var st := Run(START, str);
    RunFits(START, str);
    Completes(str, "\"", closing);
    RunOne(st, '"');
    GuardQuote(st);
  }

  lemma {:induction false} TryEscQuote(str: string, closing: string)
    requires IsClosing(closing)
    ensures var st := Run(START, str);
            CanParse(str + "\\\"" + closing) <==> Fitting(str, st.mode == In(TStr(Esc), AsValue), closing)
  {
    var st := Run(START, str);
    RunFits(START, str);
    Completes(str, "\\\"", closing);
    Run2(st, '\\', '"');
    GuardEscQuote(st);
  }

  lemma {:induction false} TryCommaOne(str: string, closing: string)
    requires IsClosing(closing)
    ensures var st := Run(START, str);
            CanParse(str + ", 1" + closing) <==> Fitting(str, Settled(st).mode == After && TopIs(st.open, Arr), closing)
  {
    var st := Run(START, str);
    RunFits(START, str);
    Completes(str, ", 1", closing);
    Run3(st, ',', ' ', '1');
    GuardCommaOne(st);
  }

  lemma {:induction false} TryKeyTail(str: string, closing: string)
    requires IsClosing(closing)
    ensures var st := Run(START, str);
            CanParse(str + "\": 1" + closing) <==> Fitting(str, st.mode == In(TStr(Plain), AsKey), closing)
  {
    var st := Run(START, str);
    RunFits(START, str);
    Completes(str, "\": 1", closing);
    Run4(st, '"', ':', ' ', '1');
    GuardKeyTail(st);
  }

  lemma {:induction false} TryEscKeyTail(str: string, closing: string)
    requires IsClosing(closing)
    ensures var st := Run(START, str);
            CanParse(str + "\\\": 1" + closing) <==> Fitting(str, st.mode == In(TStr(Esc), AsKey), closing)
  {
    var st := Run(START, str);
    RunFits(START, str);
    Completes(str, "\\\": 1", closing);
    RunCons(st, '\\', "\": 1");
    Run4(Step(st, '\\'), '"', ':', ' ', '1');
    GuardEscKeyTail(st);
  }

  lemma {:induction false} TryPair(str: string, closing: string)
    requires IsClosing(closing)
    ensures var st := Run(START, str);
            CanParse(str + "\"\": 1" + closing) <==> Fitting(str, st.mode == FirstKey || st.mode == NextKey || st.mode == In(TStr(Esc), AsKey), closing)
  {
    var st := Run(START, str);
    RunFits(START, str);
    Completes(str, "\"\": 1", closing);
    RunPair(st);
    GuardPair(st);
  }

  lemma {:induction false} TryCommaPair(str: string, closing: string)
    requires IsClosing(closing)
    ensures var st := Run(START, str);
            CanParse(str + ",\"\": 1" + closing) <==> Fitting(str, Settled(st).mode == After && TopIs(st.open, Obj), closing)
  {
    var st := Run(START, str);
    RunFits(START, str);
    Completes(str, ",\"\": 1", closing);
    RunPair(Step(st, ','));
    RunCons(st, ',', "\"\": 1");
    GuardCommaPair(st);
  }

  /** When a branch's guard holds, the text ends in a state the branch suits and `closing` closes it. */
  lemma {:induction false} GuardSuits(str: string, stack: seq<Element>, closing: string)
    requires stack != [] && LastNonSpace(str) >= 0 && IsClosing(closing)
    requires !CutsBack(Choose(str, stack, closing))
    ensures Fitting(str, Suits(Choose(str, stack, closing), Run(START, str)), closing)
  {
    AfterStructural(str);
    match Choose(str, stack, closing) {
      case ObjectValue => TryOne(str, closing);
      case ArrayValue => TryOne(str, closing);
      case AfterKey => TryColonOne(str, closing);
      case ObjectOpened => TryNothing(str, closing);
      case ValueString => TryQuote(str, closing);
      case ArrayString => TryQuote(str, closing);
      case ValueEscape => TryEscQuote(str, closing);
      case ArrayEscape => TryEscQuote(str, closing);
      case ArrayNext => TryCommaOne(str, closing);
      case NextPair => TryCommaPair(str, closing);
      case NewKey => TryNothing(str, closing); TryPair(str, closing);
      case KeyString => TryKeyTail(str, closing);
      case KeyEscape => TryEscKeyTail(str, closing);
    }
  }

  lemma {:induction false} WriteKeeps(b: Branch, str: string, closing: string, marker: string)
    requires !CutsBack(b)
    ensures var h := Write(b, str, closing, marker);
            h.Healed? && h.kept == str && h.Text() == str + (Lead(b) + marker + Tail(b)) + closing
  {
    assert str[..|str|] == str;
  }

  lemma {:induction false} WrittenReady(b: Branch, str: string, closing: string, marker: string)
    requires LegalMarker(marker) && IsClosing(closing)
    requires Fitting(str, Suits(b, Run(START, str)), closing)
    ensures CanParse(str + (Lead(b) + marker + Tail(b)) + closing)
  {
    RunFits(START, str);
    EmissionReady(b, Run(START, str), marker);
    Completes(str, Lead(b) + marker + Tail(b), closing);
  }

  lemma {:induction false} WrittenParses(b: Branch, str: string, closing: string, marker: string)
    requires LegalMarker(marker) && IsClosing(closing) && !CutsBack(b)
    requires Fitting(str, Suits(b, Run(START, str)), closing)
    ensures var h := Write(b, str, closing, marker);
            h.Healed? && h.kept == str && CanParse(h.Text())
  {
    WriteKeeps(b, str, closing, marker);
    WrittenReady(b, str, closing, marker);
  }

  /** The text a branch writes parses, although its guard tried another completion. */
  lemma {:induction false} HealedParses(str: string, stack: seq<Element>, marker: string)
    requires stack != [] && LastNonSpace(str) >= 0 && LegalMarker(marker)
    ensures var h := Heal(str, stack, marker);
            !CutsBack(Choose(str, stack, ClosingFor(stack))) ==> h.Healed? && h.kept == str && CanParse(h.Text())
  {
    var b := Choose(str, stack, ClosingFor(stack));
    ClosingForIsClosing(stack);
    if !CutsBack(b) {
      GuardSuits(str, stack, ClosingFor(stack));
      WrittenParses(b, str, ClosingFor(stack), marker);
    }
  }

  // ----- cutting the healed text at json_dump_marker

  /** Cutting the healed text at the first `json_dump_marker` gives back the kept text exactly when that
      marker neither occurs in the kept text nor runs over its end. */
  lemma {:induction false} CutGivesBackKept(str: string, stack: seq<Element>, marker: string)
    requires stack != [] && LastNonSpace(str) >= 0 && marker != "" && Heal(str, stack, marker).Healed?
    ensures var h := Heal(str, stack, marker);
            Find(h.Text(), h.dumpMarker, 0) == |h.kept| <==>
            !Occurs(h.kept, h.dumpMarker) && forall p :: 0 < p < |h.dumpMarker| ==> !Straddles(h.kept, h.dumpMarker, p)
  {
    var h := Heal(str, stack, marker);
    FirstAtJoin(h.kept, h.dumpMarker, h.tail);
  }

  predicate AllDigits(m: string) { m != "" && forall i :: 0 <= i < |m| ==> IsDigit(m[i]) }

  lemma {:induction false} DigitsAreLegal(m: string)
    requires forall i :: 0 <= i < |m| ==> IsDigit(m[i])
    ensures StaysPlain(Plain, m)
    decreases |m|
  {
    if m != "" { DigitsAreLegal(m[1..]); }
  }

  lemma {:induction false} LeadNeverStraddles(b: Branch, marker: string, a: string, p: nat)
    requires AllDigits(marker) && Lead(b) != ""
    ensures !Straddles(a, Lead(b) + marker, p)
  {
    var d := Lead(b) + marker;
    if 0 < p < |d| {
      assert d[p..][0] == d[p] && d[..|d| - p][0] == d[0] == Lead(b)[0];
      assert p >= |Lead(b)| ==> d[p] == marker[p - |Lead(b)|];
      assert d[p] != d[0];
    }
  }

  lemma {:induction false} DigitsNoStraddle(b: Branch, kept: string, marker: string)
    requires AllDigits(marker)
    ensures (forall p :: 0 < p < |Lead(b) + marker| ==> !Straddles(kept, Lead(b) + marker, p)) <==>
            Lead(b) != "" || forall p :: 0 < p < |marker| ==> !Straddles(kept, marker, p)
  {
    if Lead(b) == "" {
      assert Lead(b) + marker == marker;
    } else {
      forall p | 0 < p < |Lead(b) + marker| ensures !Straddles(kept, Lead(b) + marker, p) {
        LeadNeverStraddles(b, marker, kept, p);
      }
    }
  }

  lemma {:induction false} WriteParts(b: Branch, str: string, closing: string, marker: string)
    requires KeepTo(b, str) >= 0
    ensures var h := Write(b, str, closing, marker);
            h.Healed? && h.kept <= str && h.dumpMarker == Lead(b) + marker && (Lead(b) == "" ==> h.kept == str)
  {
  }

  /** With a marker of digits that is not in the text, the first `json_dump_marker` of the healed text is at
      the join exactly when the branch writes something before the marker or the marker does not start in
      the text. */
  lemma {:induction false} DigitMarkerJoin(str: string, stack: seq<Element>, marker: string)
    requires stack != [] && LastNonSpace(str) >= 0 && AllDigits(marker) && !Occurs(str, marker)
    requires Heal(str, stack, marker).Healed?
    ensures var h := Heal(str, stack, marker);
            Find(h.Text(), h.dumpMarker, 0) == |h.kept| <==>
            Lead(Choose(str, stack, ClosingFor(stack))) != "" || forall p :: 0 < p < |marker| ==> !Straddles(str, marker, p)
  {
    var h := Heal(str, stack, marker);
    var b := Choose(str, stack, ClosingFor(stack));
    WriteParts(b, str, ClosingFor(stack), marker);
    CutGivesBackKept(str, stack, marker);
    PartNotIn(str, h.kept, Lead(b), marker);
    DigitsNoStraddle(b, h.kept, marker);
  }
}
