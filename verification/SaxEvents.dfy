/** The SAX listener that records where a truncated JSON text stopped. */
module SaxEvents {
  import opened JsonText

  datatype Element = OBJECT | KEY | ARRAY

  datatype Event = StartObject | EndObject | StartArray | EndArray | Key | Scalar

  // ----- events raised by the parser

  function TokenEvents(role: Role): seq<Event> {
    match role
    case AsKey => [Key]
    case AsValue => [Scalar]
    case Unexpected(_) => []
  }

  function BetweenEvents(st: State, c: char): seq<Event> {
    if Between(st, c).mode == Dead then []
    else if c == '{' then [StartObject]
    else if c == '}' then [EndObject]
    else if c == '[' then [StartArray]
    else if c == ']' then [EndArray]
    else []
  }

  /** The events raised when the parser reads `c` in state `st`. */
  function StepEvents(st: State, c: char): seq<Event> {
    if st.mode.In? then
      match TokStep(st.mode.tok, c)
      case TokMore(_) => []
      case TokEnd => TokenEvents(st.mode.role)
      case TokEndBefore => TokenEvents(st.mode.role) + BetweenEvents(EndToken(st.mode.role, st.open), c)
      case TokBad => []
    else BetweenEvents(st, c)
  }

  /** All events raised over a text. */
  function RunEvents(st: State, s: string): seq<Event>
    decreases |s|
  {
    if s == "" then [] else StepEvents(st, s[0]) + RunEvents(Step(st, s[0]), s[1..])
  }

  // ----- the listener's stack

  function CloseValue(stack: seq<Element>): seq<Element> {
    if stack != [] && stack[|stack| - 1] == KEY then stack[..|stack| - 1] else stack
  }

  predicate Allowed(stack: seq<Element>, e: Event) {
    match e
    case EndObject => stack != [] && stack[|stack| - 1] == OBJECT
    case EndArray => stack != [] && stack[|stack| - 1] == ARRAY
    case _ => true
  }

  function Hear(stack: seq<Element>, e: Event): seq<Element>
    requires Allowed(stack, e)
  {
    match e
    case StartObject => stack + [OBJECT]
    case StartArray => stack + [ARRAY]
    case Key => stack + [KEY]
    case Scalar => CloseValue(stack)
    case EndObject => CloseValue(stack[..|stack| - 1])
    case EndArray => CloseValue(stack[..|stack| - 1])
  }

  predicate AllAllowed(stack: seq<Element>, es: seq<Event>)
    decreases |es|
  {
    es == [] || (Allowed(stack, es[0]) && AllAllowed(Hear(stack, es[0]), es[1..]))
  }

  function HearAll(stack: seq<Element>, es: seq<Event>): seq<Element>
    requires AllAllowed(stack, es)
    decreases |es|
  {
    if es == [] then stack else HearAll(Hear(stack, es[0]), es[1..])
  }

  // ----- the stack mirrors the open nesting

  function ElementOf(k: Container): Element { if k == Obj then OBJECT else ARRAY }

  /** The open containers with a KEY between an object and what is open inside it; no KEY on top. */
  function Frame(open: seq<Container>): seq<Element>
    decreases |open|, 0
  {
    if open == [] then []
    else Pended(open[..|open| - 1], TopIs(open[..|open| - 1], Obj)) + [ElementOf(open[|open| - 1])]
  }

  function Pended(open: seq<Container>, pending: bool): seq<Element>
    decreases |open|, 1
  {
    Frame(open) + if pending then [KEY] else []
  }

  /** A key has been read whose value has not ended. */
  predicate PendingMode(mode: Mode) {
    match mode
    case Colon => true
    case Value => true
    case In(_, AsValue) => true
    case In(_, Unexpected(was)) => PendingMode(was)
    case _ => false
  }

  predicate Pending(st: State) { TopIs(st.open, Obj) && PendingMode(st.mode) }

  function Mirror(st: State): seq<Element> { Pended(st.open, Pending(st)) }

  function ElementBracket(e: Element): string {
    match e
    case OBJECT => "}"
    case ARRAY => "]"
    case KEY => ""
  }

  /** The `closing` string built by walking the stack from its top down. */
  function ClosingFor(stack: seq<Element>): string {
    if stack == [] then "" else ElementBracket(stack[|stack| - 1]) + ClosingFor(stack[..|stack| - 1])
  }

  // ----- what every step keeps

  lemma {:induction false} HearOne(stack: seq<Element>, e: Event)
    requires Allowed(stack, e)
    ensures AllAllowed(stack, [e]) && HearAll(stack, [e]) == Hear(stack, e)
  {
    assert [e][1..] == [];
  }

  lemma {:induction false} HearTwo(stack: seq<Element>, d: Event, e: Event)
    requires Allowed(stack, d) && Allowed(Hear(stack, d), e)
    ensures AllAllowed(stack, [d] + [e]) && HearAll(stack, [d] + [e]) == Hear(Hear(stack, d), e)
  {
    assert ([d] + [e])[0] == d && ([d] + [e])[1..] == [e];
    HearOne(Hear(stack, d), e);
  }

  lemma {:induction false} FrameTop(open: seq<Container>)
    ensures CloseValue(Frame(open)) == Frame(open)
    ensures CloseValue(Pended(open, true)) == Frame(open)
  {
  }

  lemma {:induction false} OpenMirror(st: State, k: Container, mode: Mode)
    requires Pending(st) == TopIs(st.open, Obj)
    requires !PendingMode(mode)
    ensures Mirror(State(mode, st.open + [k])) == Mirror(st) + [ElementOf(k)]
  {
    var deeper := st.open + [k];
    assert deeper[..|deeper| - 1] == st.open;
    assert Mirror(st) == Pended(st.open, TopIs(st.open, Obj));
    assert Mirror(State(mode, deeper)) == Frame(deeper);
  }

  lemma {:induction false} CloseMirror(st: State)
    requires !Pending(st) && st.open != []
    ensures Mirror(st) != [] && Mirror(st)[|Mirror(st)| - 1] == ElementOf(st.open[|st.open| - 1])
    ensures CloseValue(Mirror(st)[..|Mirror(st)| - 1]) == Mirror(State(After, st.open[..|st.open| - 1]))
  {
    var outer := st.open[..|st.open| - 1];
    assert Mirror(st) == Frame(st.open);
    assert Mirror(st)[..|Mirror(st)| - 1] == Pended(outer, TopIs(outer, Obj));
    FrameTop(outer);
    assert Mirror(State(After, outer)) == Frame(outer);
  }

  lemma {:induction false} BetweenMirror(st: State, c: char)
    requires Fits(st) && !st.mode.In? && Between(st, c).mode != Dead
    ensures AllAllowed(Mirror(st), BetweenEvents(st, c))
    ensures HearAll(Mirror(st), BetweenEvents(st, c)) == Mirror(Between(st, c))
  {
    if c == '{' {
      OpenMirror(st, Obj, FirstKey);
      HearOne(Mirror(st), StartObject);
    } else if c == '[' {
      OpenMirror(st, Arr, FirstElem);
      HearOne(Mirror(st), StartArray);
    } else if c == '}' {
      CloseMirror(st);
      HearOne(Mirror(st), EndObject);
    } else if c == ']' {
      CloseMirror(st);
      HearOne(Mirror(st), EndArray);
    } else {
      assert BetweenEvents(st, c) == [];
      assert Pending(Between(st, c)) == Pending(st) && Between(st, c).open == st.open;
    }
  }

  lemma {:induction false} EndTokenMirror(st: State)
    requires Fits(st) && st.mode.In? && !st.mode.role.Unexpected?
    ensures var es := TokenEvents(st.mode.role);
            |es| == 1 && Allowed(Mirror(st), es[0]) && Hear(Mirror(st), es[0]) == Mirror(EndToken(st.mode.role, st.open))
  {
    if st.mode.role == AsValue {
      FrameTop(st.open);
    }
  }

  /** Each character's callbacks meet the listener's assertions and keep the stack a mirror of the nesting. */
  lemma {:induction false} StepMirror(st: State, c: char)
    requires Fits(st) && Step(st, c).mode != Dead
    ensures AllAllowed(Mirror(st), StepEvents(st, c))
    ensures HearAll(Mirror(st), StepEvents(st, c)) == Mirror(Step(st, c))
  {
    if !st.mode.In? {
      BetweenMirror(st, c);
    } else if TokStep(st.mode.tok, c) == TokEnd {
      EndTokenMirror(st);
      HearOne(Mirror(st), TokenEvents(st.mode.role)[0]);
    } else if TokStep(st.mode.tok, c) == TokEndBefore {
      EndTokenMirror(st);
      var mid := EndToken(st.mode.role, st.open);
      var d := TokenEvents(st.mode.role);
      BetweenMirror(mid, c);
      var es := BetweenEvents(mid, c);
      if es == [] {
        assert d + es == [d[0]];
        HearOne(Mirror(st), d[0]);
      } else {
        assert es == [es[0]] && d == [d[0]];
        HearTwo(Mirror(st), d[0], es[0]);
      }
    }
  }

  lemma {:induction false} HearAppend(stack: seq<Element>, a: seq<Event>, b: seq<Event>)
    requires AllAllowed(stack, a) && AllAllowed(HearAll(stack, a), b)
    ensures AllAllowed(stack, a + b) && HearAll(stack, a + b) == HearAll(HearAll(stack, a), b)
    decreases |a|
  {
    if a == [] {
      assert a + b == b;
    } else {
      assert (a + b)[0] == a[0] && (a + b)[1..] == a[1..] + b;
      HearAppend(Hear(stack, a[0]), a[1..], b);
    }
  }

  /** Over any text the grammar has not yet refused, no listener assertion fails and the stack is the mirror. */
  lemma {:induction false} RunMirror(st: State, s: string)
    requires Fits(st) && Run(st, s).mode != Dead
    ensures AllAllowed(Mirror(st), RunEvents(st, s))
    ensures HearAll(Mirror(st), RunEvents(st, s)) == Mirror(Run(st, s))
    decreases |s|
  {
    if s != "" {
      var next := Step(st, s[0]);
      if next.mode == Dead { DeadStays(next, s[1..]); }
      StepFits(st, s[0]);
      StepMirror(st, s[0]);
      RunMirror(next, s[1..]);
      HearAppend(Mirror(st), StepEvents(st, s[0]), RunEvents(next, s[1..]));
    }
  }

  predicate SitsAt(stack: seq<Element>, i: nat)
    requires i < |stack|
  {
    if stack[i] == KEY then i > 0 && stack[i - 1] == OBJECT else i > 0 ==> stack[i - 1] != OBJECT
  }

  /** Keys sit directly on objects; containers are at the bottom or on a key or an array. */
  predicate WellNested(stack: seq<Element>) {
    forall i :: 0 <= i < |stack| ==> SitsAt(stack, i)
  }

  lemma {:induction false} NestedPush(stack: seq<Element>, e: Element)
    requires WellNested(stack) && SitsAt(stack + [e], |stack|)
    ensures WellNested(stack + [e])
  {
    forall i | 0 <= i < |stack| + 1
      ensures SitsAt(stack + [e], i)
    {
      if i < |stack| { assert SitsAt(stack, i); }
    }
  }

  lemma {:induction false} FrameNested(open: seq<Container>)
    ensures WellNested(Frame(open))
    ensures open != [] ==> Frame(open) != [] && Frame(open)[|Frame(open)| - 1] == ElementOf(open[|open| - 1])
    ensures ClosingFor(Frame(open)) == ClosingOf(open)
    decreases |open|
  {
    if open != [] {
      var outer := open[..|open| - 1];
      FrameNested(outer);
      var below := Pended(outer, TopIs(outer, Obj));
      if TopIs(outer, Obj) { NestedPush(Frame(outer), KEY); }
      assert below == Frame(outer) || below == Frame(outer) + [KEY];
      NestedPush(below, ElementOf(open[|open| - 1]));
      assert Frame(open) == below + [ElementOf(open[|open| - 1])];
      assert Frame(open)[..|Frame(open)| - 1] == below;
      PendedClosing(outer, TopIs(outer, Obj));
    }
  }

  lemma {:induction false} PendedClosing(open: seq<Container>, pending: bool)
    ensures ClosingFor(Pended(open, pending)) == ClosingFor(Frame(open))
  {
    if pending {
      assert Pended(open, true)[..|Pended(open, true)| - 1] == Frame(open);
    } else {
      assert Pended(open, false) == Frame(open);
    }
  }

  /** The mirror of any state is well nested, and the brackets built from it are exactly those that
      close the open containers. */
  lemma {:induction false} MirrorShape(st: State)
    ensures WellNested(Mirror(st))
    ensures ClosingFor(Mirror(st)) == ClosingOf(st.open)
    ensures Mirror(st) == [] <==> st.open == []
    ensures st.open != [] ==> Mirror(st)[|Mirror(st)| - 1] == (if Pending(st) then KEY else ElementOf(st.open[|st.open| - 1]))
  {
    FrameNested(st.open);
    if Pending(st) { NestedPush(Frame(st.open), KEY); } else { assert Mirror(st) == Frame(st.open); }
    PendedClosing(st.open, Pending(st));
  }

  // ----- the listener as an object

  class JsonErrorLocator {
    var position: nat
    var foundError: bool
    var stack: seq<Element>

    constructor ()
      ensures position == 0 && !foundError && stack == []
    {
      position, foundError, stack := 0, false, [];
    }

    method ParseError(at: nat)
      requires at > 0
      modifies this
      ensures position == at - 1 && foundError && stack == old(stack)
    {
      position := at - 1;
      foundError := true;
    }

    method CloseLastValue()
      modifies this`stack
      ensures stack == CloseValue(old(stack))
    {
      if stack != [] && stack[|stack| - 1] == KEY {
        stack := stack[..|stack| - 1];
      }
    }

    /** One callback; the precondition is the assertion in `end_object` and `end_array`. */
    method On(e: Event)
      requires Allowed(stack, e)
      modifies this`stack
      ensures stack == Hear(old(stack), e)
    {
      match e {
        case StartObject => stack := stack + [OBJECT];
        case StartArray => stack := stack + [ARRAY];
        case Key => stack := stack + [KEY];
        case Scalar => CloseLastValue();
        case EndObject =>
          stack := stack[..|stack| - 1];
          CloseLastValue();
        case EndArray =>
          stack := stack[..|stack| - 1];
          CloseLastValue();
      }
    }

    method OnAll(es: seq<Event>)
      requires AllAllowed(stack, es)
      modifies this`stack
      ensures stack == HearAll(old(stack), es)
    {
      var i := 0;
      while i < |es|
        invariant 0 <= i <= |es|
        invariant AllAllowed(stack, es[i..]) && HearAll(stack, es[i..]) == HearAll(old(stack), es)
      {
        assert es[i..][0] == es[i] && es[i..][1..] == es[i + 1..];
        On(es[i]);
        i := i + 1;
      }
    }
  }

  // ----- where the error is reported

  /** How many characters are read before one the grammar refuses. */
  function ReadBefore(st: State, s: string): (n: nat)
    ensures n <= |s|
    decreases |s|
  {
    if s == "" || Step(st, s[0]).mode == Dead then 0 else 1 + ReadBefore(Step(st, s[0]), s[1..])
  }

  /** The lexer looks one character past a number before the parser can refuse it. */
  function LookBack(st: State): nat {
    if st.mode.In? && st.mode.role.Unexpected? && st.mode.tok.TNum? && Complete(st.mode.tok.n) then 1 else 0
  }

  lemma {:induction false} ReadBeforeAt(st: State, s: string, i: nat)
    requires i <= |s| && Run(st, s[..i]).mode != Dead && st.mode != Dead
    ensures i == |s| || Step(Run(st, s[..i]), s[i]).mode == Dead ==> ReadBefore(st, s) == i
    decreases i
  {
    if i > 0 {
      assert s[..i][0] == s[0] && s[..i][1..] == s[1..][..i - 1];
      var next := Step(st, s[0]);
      if next.mode == Dead { DeadStays(next, s[..i][1..]); }
      ReadBeforeAt(next, s[1..], i - 1);
    }
  }

  /** `err_loc.position` after a failing `sax_parse`. */
  function ErrorPosition(s: string): int {
    var n := ReadBefore(START, s);
    n - LookBack(Run(START, s[..n]))
  }

  /** The listener is always left with the mirror of the state the reported prefix ends in. */
  lemma {:induction false} ErrorPositionState(s: string)
    requires !CanParse(s)
    ensures var n := ReadBefore(START, s);
            var p := ErrorPosition(s);
            && 0 <= p <= n
            && Run(START, s[..n]).mode != Dead
            && Run(START, s[..p]).mode != Dead
            && Mirror(Settled(Run(START, s[..p]))) == Mirror(Settled(Run(START, s[..n])))
            && Settled(Run(START, s[..p])).open == Run(START, s[..n]).open
  {
    hide Mirror, Step;
    var n := ReadBefore(START, s);
    ReadBeforeRuns(START, s);
    var here := s[..n];
    if LookBack(Run(START, here)) == 1 {
      assert n > 0;
      RunLast(START, here);
      assert here[..n - 1] == s[..n - 1];
      RunFits(START, here[..n - 1]);
      UnexpectedNumberStep(Run(START, here[..n - 1]), here[n - 1]);
    }
  }

  lemma {:induction false} ReadBeforeRuns(st: State, s: string)
    requires st.mode != Dead
    ensures var n := ReadBefore(st, s);
            Run(st, s[..n]).mode != Dead && (n < |s| ==> Step(Run(st, s[..n]), s[n]).mode == Dead)
    decreases |s|
  {
    if s != "" && Step(st, s[0]).mode != Dead {
      var n := ReadBefore(st, s);
      ReadBeforeRuns(Step(st, s[0]), s[1..]);
      assert s[..n][0] == s[0] && s[..n][1..] == s[1..][..n - 1];
    }
  }

  lemma {:induction false} UnexpectedNumberStep(st: State, c: char)
    requires Fits(st) && LookBack(Step(st, c)) == 1
    ensures st.mode != Dead && Settled(st).open == st.open
    ensures Mirror(Settled(st)) == Mirror(Step(st, c)) == Mirror(Settled(Step(st, c)))
    ensures Step(st, c).open == st.open
  {
  }

  /** `json::sax_parse`, raising its callbacks on the listener. */
  method SaxParse(input: string, loc: JsonErrorLocator)
    requires loc.stack == [] && !loc.foundError
    modifies loc
    ensures loc.foundError <==> !CanParse(input)
    ensures loc.foundError ==>
              loc.position == ErrorPosition(input) && loc.stack == Mirror(Settled(Run(START, input[..loc.position])))
  {
    var st := START;
    var i := 0;
    while i < |input| && Step(st, input[i]).mode != Dead
      invariant 0 <= i <= |input|
      invariant st == Run(START, input[..i]) && st.mode != Dead && Fits(st)
      invariant loc.stack == Mirror(st) && !loc.foundError
    {
      StepFits(st, input[i]);
      StepMirror(st, input[i]);
      RunLast(START, input[..i + 1]);
      assert input[..i + 1][..i] == input[..i];
      loc.OnAll(StepEvents(st, input[i]));
      st := Step(st, input[i]);
      i := i + 1;
    }
    ReadBeforeAt(START, input, i);
    if i < |input| {
      assert input == input[..i] + ([input[i]] + input[i + 1..]);
      RunConcat(START, input[..i], [input[i]] + input[i + 1..]);
      DeadStays(Step(st, input[i]), input[i + 1..]);
    } else {
      assert input[..i] == input;
    }
    if Settled(st) != st {
      EndTokenMirror(st);
      loc.On(Scalar);
    }
    if i < |input| || !Accept(st) {
      ErrorPositionState(input);
      loc.ParseError(i + 1 - LookBack(st));
    }
  }
}
