/** Which healing branch a truncated text takes, and exactly when healing succeeds. */
module HealingTheorems {
  import opened JsonText
  import opened SaxEvents
  import opened Text
  import opened PartialJson

  // ----- the cut-back branches

  lemma {:induction false} NoStringWithoutQuote(st: State, c: char)
    requires !InString(st) && c != '"'
    ensures !InString(Step(st, c))
  {
  }

  lemma {:induction false} StaysOutside(st: State, m: string)
    requires !InString(st) && '"' !in m
    ensures !InString(Run(st, m))
    decreases |m|
  {
    if m != "" {
      assert m[0] in m;
      NoStringWithoutQuote(st, m[0]);
      StaysOutside(Step(st, m[0]), m[1..]);
    }
  }

  predicate AtValue(st: State) { st.mode == Value || st.mode == FirstElem }

  lemma {:induction false} QuotedRun(st: State, m: string) returns (opn: State, end: State)
    ensures opn == Step(st, '"') && end == Run(opn, m) && Run(st, "\"" + m + "\"") == Step(end, '"')
  {
    opn := Step(st, '"');
    end := Run(opn, m);
    RunConcat(st, "\"" + m, "\"");
    RunConcat(st, "\"", m);
    RunOne(st, '"');
    RunOne(end, '"');
  }

  /** A quote that opens a string where no value is due opens one that is not a value. */
  lemma {:induction false} QuoteElsewhere(st: State)
    requires Fits(st) && !AtValue(st) && (InString(st) ==> st.mode.tok.s == Plain)
    ensures var opn := Step(st, '"'); InString(opn) ==> opn.mode.tok.s == Plain && opn.mode.role != AsValue
  {
  }

  lemma {:induction false} NotReadyOutside(opn: State, m: string)
    requires LegalMarker(m) && (InString(opn) ==> opn.mode.tok.s == Plain && opn.mode.role != AsValue)
    ensures Run(opn, m).mode != In(TStr(Plain), AsValue)
  {
    if InString(opn) {
      MarkerInString(Plain, opn.mode.role, opn.open, m);
    } else {
      NoQuoteInMarker(Plain, m);
      StaysOutside(opn, m);
    }
  }

  /** A quoted marker written anywhere but where a value is due never leads back to the end of a value. */
  lemma {:induction false} QuotedOnlyAtValue(st: State, m: string)
    requires Fits(st) && LegalMarker(m) && !AtValue(st) && (InString(st) ==> st.mode.tok.s == Plain)
    ensures !Ready(Run(st, "\"" + m + "\""))
  {
    var opn, end := QuotedRun(st, m);
    StepFits(st, '"');
    RunFits(opn, m);
    QuoteElsewhere(st);
    NotReadyOutside(opn, m);
    GuardQuote(end);
  }

  lemma {:induction false} AfterCutChar(str: string, p: nat)
    requires p < |str| && (str[p] == ':' || str[p] == '[' || str[p] == ',')
    ensures var st := Run(START, str[..p + 1]);
            Fits(st) && (InString(st) ==> st.mode.tok.s == Plain)
  {
    RunFits(START, str[..p]);
    RunFits(START, str[..p + 1]);
    RunLast(START, str[..p + 1]);
    assert str[..p + 1][..p] == str[..p];
    StructuralStep(Run(START, str[..p]), str[p]);
  }

  /** The text cut back to `p` parses exactly when a value was due there with the same brackets to close:
      the character is structural, not part of a string, and sits at the depth the text ended at. */
  lemma {:induction false} CutParsesExactly(str: string, p: nat, marker: string, closing: string)
    requires p < |str| && (str[p] == ':' || str[p] == '[' || str[p] == ',')
    requires LegalMarker(marker) && IsClosing(closing)
    ensures var st := Run(START, str[..p + 1]);
            CanParse(str[..p + 1] + ("\"" + marker + "\"") + closing) <==> AtValue(st) && closing == ClosingOf(st.open)
  {
    var st := Run(START, str[..p + 1]);
    AfterCutChar(str, p);
    Completes(str[..p + 1], "\"" + marker + "\"", closing);
    if AtValue(st) {
      EmissionReady(ObjectValue, st, marker);
    } else {
      QuotedOnlyAtValue(st, marker);
    }
  }

  lemma {:induction false} ClosingInjective(a: seq<Container>, b: seq<Container>)
    requires ClosingOf(a) == ClosingOf(b)
    ensures a == b
    decreases |a|
  {
    if a != [] {
      assert b != [];
      assert ClosingOf(a)[1..] == ClosingOf(a[..|a| - 1]) && ClosingOf(b)[1..] == ClosingOf(b[..|b| - 1]);
      assert ClosingOf(a)[0] == Bracket(a[|a| - 1]) && ClosingOf(b)[0] == Bracket(b[|b| - 1]);
      ClosingInjective(a[..|a| - 1], b[..|b| - 1]);
      assert a == a[..|a| - 1] + [a[|a| - 1]] && b == b[..|b| - 1] + [b[|b| - 1]];
    }
  }

  // ----- which branch is taken

  /** The listener's stack when the parser stops after reading `str`. */
  function StackAfter(str: string): seq<Element> { Mirror(Settled(Run(START, str))) }

  function CutFor(top: Element): Branch {
    match top
    case KEY => CutToValue
    case ARRAY => CutToElement
    case OBJECT => CutToPair
  }

  /** The branch, read off the state the text ends in and its last character. */
  function BranchAt(st: State, back: char): Branch
    requires st.open != []
  {
    var inObject := TopIs(st.open, Obj);
    var cut := CutFor(if Pending(Settled(st)) then KEY else ElementOf(st.open[|st.open| - 1]));
    match st.mode
    case Value => if inObject then ObjectValue else ArrayValue
    case FirstElem => ArrayValue
    case FirstKey => NewKey
    case NextKey => NewKey
    case Colon => AfterKey
    case After => if back == 'e' then cut else if inObject then NextPair else ArrayNext
    case In(TStr(Plain), AsKey) => KeyString
    case In(TStr(Esc), AsKey) => KeyEscape
    case In(TStr(Plain), AsValue) => if inObject then ValueString else ArrayString
    case In(TStr(Esc), AsValue) => if inObject then ValueEscape else ArrayEscape
    case _ => cut
  }

  lemma {:induction false} OpenNotBlank(str: string)
    requires Run(START, str).open != []
    ensures LastNonSpace(str) >= 0
  {
    if LastNonSpace(str) < 0 { SpacesKeep(START, str); }
  }

  /** What the last character read says about the state. */
  lemma {:induction false} LastCharacter(str: string)
    requires str != "" && Run(START, str).mode != Dead
    ensures var st := Run(START, str); var c := str[|str| - 1];
            && (st.mode.In? && st.mode.tok == TStr(Esc) ==> c == '\\')
            && (Settled(st) != st ==> IsDigit(c))
            && (st.mode == After ==> IsSpace(c) || c == '}' || c == ']' || c == '"' || 'a' <= c <= 'z')
  {
    RunLast(START, str);
    RunFits(START, str[..|str| - 1]);
    LastStep(Run(START, str[..|str| - 1]), str[|str| - 1]);
  }

  lemma {:induction false} LastStep(st: State, c: char)
    requires Fits(st) && Step(st, c).mode != Dead
    ensures var r := Step(st, c);
            && (r.mode.In? && r.mode.tok == TStr(Esc) ==> c == '\\')
            && (Settled(r) != r ==> IsDigit(c))
            && (r.mode == After ==> IsSpace(c) || c == '}' || c == ']' || c == '"' || 'a' <= c <= 'z')
  {
  }

  lemma {:induction false} SpaceBack(st: State, c: char)
    requires IsSpace(c) && var m := Step(st, c).mode; m == Value || m == FirstElem || m == FirstKey || m == NextKey
    ensures Step(st, c) == st
  {
  }

  lemma {:induction false} StructuralBack(st: State, c: char)
    requires Fits(st) && !IsSpace(c)
    ensures var r := Step(st, c);
            && (r.mode == Value ==> if TopIs(r.open, Obj) then c == ':' else c == ',' && TopIs(r.open, Arr))
            && (r.mode == FirstElem ==> c == '[')
            && (r.mode == FirstKey ==> c == '{')
            && (r.mode == NextKey ==> c == ',')
  {
  }

  /** Where a value or a key is due inside a container, the last non-blank character is the structural
      one that made it due, and nothing has changed since. */
  lemma {:induction false} DueAt(str: string)
    requires var st := Run(START, str); st.open != [] && (AtValue(st) || st.mode == FirstKey || st.mode == NextKey)
    ensures var st := Run(START, str); var p := LastNonSpace(str);
            && p >= 0 && Run(START, str[..p + 1]) == st
            && (st.mode == Value ==> str[p] == if TopIs(st.open, Obj) then ':' else ',')
            && (st.mode == FirstElem ==> str[p] == '[')
            && (st.mode == FirstKey ==> str[p] == '{')
            && (st.mode == NextKey ==> str[p] == ',')
    decreases |str|
  {
    OpenNotBlank(str);
    var init := str[..|str| - 1];
    var c := str[|str| - 1];
    RunLast(START, str);
    RunFits(START, init);
    if IsSpace(c) {
      SpaceBack(Run(START, init), c);
      DueAt(init);
      assert LastNonSpace(str) == LastNonSpace(init);
      assert str[..LastNonSpace(str) + 1] == init[..LastNonSpace(str) + 1];
    } else {
      StructuralBack(Run(START, init), c);
      assert str[..|str|] == str;
    }
  }

  lemma {:induction false} BracketsOnly(open: seq<Container>)
    ensures IsClosing(ClosingOf(open))
    decreases |open|
  {
    if open != [] { BracketsOnly(open[..|open| - 1]); }
  }

  /** What each completion says about the state, given the brackets that close it. */
  function TriedAt(st: State, one: bool): Tried {
    Tried(
      Ready(st), one, st.mode == Colon,
      st.mode == In(TStr(Plain), AsValue), st.mode == In(TStr(Esc), AsValue),
      Settled(st).mode == After && TopIs(st.open, Arr),
      st.mode == FirstKey || st.mode == NextKey || st.mode == In(TStr(Esc), AsKey),
      Settled(st).mode == After && TopIs(st.open, Obj),
      st.mode == In(TStr(Plain), AsKey), st.mode == In(TStr(Esc), AsKey))
  }

  lemma {:induction false} TryAllAt(str: string)
    ensures var st := Run(START, str);
            var can := TryAll(str, ClosingOf(st.open));
            can == TriedAt(st, can.one)
  {
    var closing := ClosingOf(Run(START, str).open);
    BracketsOnly(Run(START, str).open);
    TryNothing(str, closing);
    TryColonOne(str, closing);
    TryQuote(str, closing);
    TryEscQuote(str, closing);
    TryCommaOne(str, closing);
    TryPair(str, closing);
    TryCommaPair(str, closing);
    TryKeyTail(str, closing);
    TryEscKeyTail(str, closing);
  }

  /** What the last characters of a text say about the state it ends in. */
  predicate LastFacts(st: State, last: char, back: char, one: bool) {
    && (last in {':', ',', '['} ==> (one <==> AtValue(st)))
    && (st.mode == Value ==> last == if TopIs(st.open, Obj) then ':' else ',')
    && (st.mode == FirstElem ==> last == '[')
    && (st.mode == FirstKey ==> last == '{')
    && (st.mode == NextKey ==> last == ',')
    && (last == '{' ==> Settled(st).mode != After)
    && (st.mode.In? && st.mode.tok == TStr(Esc) ==> last == '\\' && back == '\\')
  }

  lemma {:induction false} LastFactsHold(str: string)
    requires var st := Run(START, str); st.mode != Dead && st.open != []
    ensures var st := Run(START, str);
            && LastNonSpace(str) >= 0
            && LastFacts(st, str[LastNonSpace(str)], str[|str| - 1], TryAll(str, ClosingOf(st.open)).one)
  {
    var st := Run(START, str);
    OpenNotBlank(str);
    AfterStructural(str);
    LastCharacter(str);
    BracketsOnly(st.open);
    if str[LastNonSpace(str)] in {':', ',', '['} { TryOne(str, ClosingOf(st.open)); }
    if AtValue(st) || st.mode == FirstKey || st.mode == NextKey { DueAt(str); }
  }

  lemma {:induction false} MaybeNumberIs(str: string)
    requires var st := Run(START, str); st.mode != Dead && st.open != [] && Settled(st).mode == After
    ensures LastNonSpace(str) >= 0
    ensures WasMaybeNumber(str) <==> Settled(Run(START, str)) != Run(START, str) || str[|str| - 1] == 'e'
  {
    OpenNotBlank(str);
    LastCharacter(str);
  }

  lemma {:induction false} PickAt(st: State, last: char, back: char, maybeNumber: bool, one: bool)
    requires Fits(st) && st.mode != Dead && st.open != [] && LastFacts(st, last, back, one)
    requires Settled(st).mode == After ==> (maybeNumber <==> Settled(st) != st || back == 'e')
    ensures var top := if Pending(Settled(st)) then KEY else ElementOf(st.open[|st.open| - 1]);
            Pick(top, last, back, maybeNumber, TriedAt(st, one)) == BranchAt(st, back)
  {
  }

  lemma {:induction false} StackAfterTop(str: string)
    requires var st := Run(START, str); st.mode != Dead && st.open != []
    ensures var st := Run(START, str); var stack := StackAfter(str);
            && stack != [] && ClosingFor(stack) == ClosingOf(st.open)
            && stack[|stack| - 1] == if Pending(Settled(st)) then KEY else ElementOf(st.open[|st.open| - 1])
  {
    MirrorShape(Settled(Run(START, str)));
  }

  lemma {:induction false} ChooseIs(str: string, stack: seq<Element>, closing: string, top: Element, can: Tried)
    requires stack != [] && LastNonSpace(str) >= 0
    requires stack[|stack| - 1] == top && TryAll(str, closing) == can
    ensures Choose(str, stack, closing) == Pick(top, str[LastNonSpace(str)], str[|str| - 1], WasMaybeNumber(str), can)
  {
  }

  /** Every branch, read off the state: the text's own last token decides, and nothing else. */
  lemma {:induction false} BranchTaken(str: string)
    requires var st := Run(START, str); st.mode != Dead && st.open != []
    ensures var st := Run(START, str);
            && LastNonSpace(str) >= 0 && StackAfter(str) != []
            && Choose(str, StackAfter(str), ClosingOf(st.open)) == BranchAt(st, str[|str| - 1])
  {
    var st := Run(START, str);
    LastFactsHold(str);
    StackAfterTop(str);
    TryAllAt(str);
    var one := TryAll(str, ClosingOf(st.open)).one;
    var stack := StackAfter(str);
    ChooseIs(str, stack, ClosingOf(st.open), stack[|stack| - 1], TriedAt(st, one));
    assert Settled(st).mode == After ==> (WasMaybeNumber(str) <==> Settled(st) != st || str[|str| - 1] == 'e') by {
      if Settled(st).mode == After { MaybeNumberIs(str); }
    }
    RunFits(START, str);
    PickAt(st, str[LastNonSpace(str)], str[|str| - 1], WasMaybeNumber(str), one);
  }

  /** The healing a truncated text gets, by the branch its state calls for. */
  lemma {:induction false} HealWrites(str: string, marker: string)
    requires var st := Run(START, str); st.mode != Dead && st.open != []
    ensures LastNonSpace(str) >= 0 && StackAfter(str) != []
    ensures var st := Run(START, str);
            Heal(str, StackAfter(str), marker) == Write(BranchAt(st, str[|str| - 1]), str, ClosingOf(st.open), marker)
  {
    BranchTaken(str);
    StackAfterTop(str);
  }

  lemma {:induction false} BranchNeverObjectOpened(st: State, back: char)
    requires st.open != []
    ensures BranchAt(st, back) != ObjectOpened
  {
  }

  /** The listener pushes an object before anything inside it, so a text that stops right after an opening
      brace never has a KEY on top: that branch of the code is never taken. */
  lemma {:induction false} ObjectOpenedNeverTaken(str: string)
    requires var st := Run(START, str); st.mode != Dead && st.open != []
    ensures LastNonSpace(str) >= 0 && StackAfter(str) != []
    ensures Choose(str, StackAfter(str), ClosingOf(Run(START, str).open)) != ObjectOpened
  {
    BranchTaken(str);
    BranchNeverObjectOpened(Run(START, str), str[|str| - 1]);
  }

  // ----- numbers and literals: cutting back finds the place the value was due

  /** The text ends in a number, in a literal, or right after `true` or `false`. */
  predicate EndsInPrimitive(str: string) {
    var st := Run(START, str);
    || (st.mode.In? && st.mode.role == AsValue && !st.mode.tok.TStr?)
    || (st.mode == After && str != "" && str[|str| - 1] == 'e')
  }

  predicate NoCutChar(s: string) { ':' !in s && ',' !in s && '[' !in s }

  lemma {:induction false} PrimitiveBack(st: State, c: char)
    requires Fits(st)
    ensures var r := Step(st, c);
            r.mode.In? && r.mode.role == AsValue && !r.mode.tok.TStr? ==>
              && c != ':' && c != ',' && c != '['
              && r.open == st.open
              && (AtValue(st) || (st.mode.In? && st.mode.role == AsValue && !st.mode.tok.TStr?))
  {
  }

  lemma {:induction false} LiteralEndBack(st: State)
    requires Fits(st) && Step(st, 'e').mode == After
    ensures st.mode.In? && st.mode.role == AsValue && st.mode.tok.TLit? && Step(st, 'e').open == st.open
  {
  }

  /** Where the last token of a text that ends in a number or a literal started. */
  lemma {:induction false} TokenPlace(str: string) returns (k: nat)
    requires EndsInPrimitive(str)
    ensures k < |str| && AtValue(Run(START, str[..k])) && Run(START, str[..k]).open == Run(START, str).open
    ensures NoCutChar(str[k..])
    decreases |str|
  {
    var init := str[..|str| - 1];
    var c := str[|str| - 1];
    RunLast(START, str);
    RunFits(START, init);
    PrimitiveBack(Run(START, init), c);
    if Run(START, str).mode == After { LiteralEndBack(Run(START, init)); }
    if AtValue(Run(START, init)) {
      k := |init|;
      assert str[k..] == [c];
    } else {
      k := TokenPlace(init);
      assert init[..k] == str[..k];
      assert str[k..] == init[k..] + [c];
    }
  }

  lemma {:induction false} FindLastIs(s: string, chars: set<char>, p: nat)
    requires p < |s| && s[p] in chars && forall i :: p < i < |s| ==> s[i] !in chars
    ensures FindLast(s, chars) == p
  {
    var q := FindLast(s, chars);
    assert s[p] in chars;
  }

  /** For a text that stops in a number or a literal, the cut-back lands on the ':', ',' or '[' that made
      the value due, in the innermost open container. */
  lemma {:induction false} PrimitiveCutPlace(str: string, chars: set<char>)
    requires EndsInPrimitive(str) && Run(START, str).open != []
    requires chars == if TopIs(Run(START, str).open, Obj) then {':'} else {'[', ','}
    ensures var p := FindLast(str, chars);
            && p >= 0 && (str[p] == ':' || str[p] == '[' || str[p] == ',')
            && AtValue(Run(START, str[..p + 1])) && Run(START, str[..p + 1]).open == Run(START, str).open
  {
    var k := TokenPlace(str);
    var upTo := str[..k];
    RunFits(START, upTo);
    DueAt(upTo);
    var p := LastNonSpace(upTo);
    forall i | p < i < |str| ensures str[i] !in chars {
      if i < k {
        assert upTo[i] == str[i] && IsSpace(upTo[i]);
      } else {
        assert str[i] == str[k..][i - k];
      }
    }
    FindLastIs(str, chars, p);
    assert upTo[..p + 1] == str[..p + 1];
  }

  // ----- when healing succeeds

  /** The text stops inside a string at a point where neither a quote nor an escaped quote can follow:
      in a `\u` escape, between surrogates, or inside a UTF-8 sequence. */
  predicate MidEscape(st: State) {
    InString(st) && st.mode.tok.s != Plain && st.mode.tok.s != Esc
  }

  lemma {:induction false} CutForChars(st: State, back: char)
    requires Fits(st) && st.mode != Dead && st.open != [] && CutsBack(BranchAt(st, back)) && !MidEscape(st) && !Refused(st)
    ensures (st.mode.In? && st.mode.role == AsValue && !st.mode.tok.TStr?) || (st.mode == After && back == 'e')
    ensures CutChars(BranchAt(st, back)) == if TopIs(st.open, Obj) then {':'} else {'[', ','}
  {
  }

  lemma {:induction false} CutText(b: Branch, str: string, closing: string, marker: string)
    requires CutsBack(b) && FindLast(str, CutChars(b)) >= 0
    ensures var p := FindLast(str, CutChars(b)); var h := Write(b, str, closing, marker);
            h.Healed? && h.kept == str[..p + 1] && h.Text() == str[..p + 1] + ("\"" + marker + "\"") + closing
  {
  }

  lemma {:induction false} CutWritten(b: Branch, str: string, closing: string, marker: string)
    requires CutsBack(b) && FindLast(str, CutChars(b)) >= 0 && LegalMarker(marker) && IsClosing(closing)
    ensures var p := FindLast(str, CutChars(b)); var h := Write(b, str, closing, marker); var st := Run(START, str[..p + 1]);
            && h.Healed? && h.kept == str[..p + 1]
            && (CanParse(h.Text()) <==> AtValue(st) && closing == ClosingOf(st.open))
  {
    CutText(b, str, closing, marker);
    CutParsesExactly(str, FindLast(str, CutChars(b)), marker, closing);
  }

  lemma {:induction false} BranchSuits(st: State, back: char)
    requires Fits(st) && st.mode != Dead && st.open != [] && !CutsBack(BranchAt(st, back))
    ensures Suits(BranchAt(st, back), st)
    ensures !((st.mode.In? && st.mode.role == AsValue && !st.mode.tok.TStr?) || (st.mode == After && back == 'e'))
  {
  }

  lemma {:induction false} TruncatedTextWrites(str: string, marker: string)
    requires var st := Run(START, str); str != "" && st.mode != Dead && st.open != [] && !Refused(st) && !MidEscape(st)
    requires LegalMarker(marker)
    ensures var st := Run(START, str);
            var h := Write(BranchAt(st, str[|str| - 1]), str, ClosingOf(st.open), marker);
            && h.Healed? && CanParse(h.Text())
            && (!EndsInPrimitive(str) ==> h.kept == str)
            && (EndsInPrimitive(str) ==> h.kept <= str && AtValue(Run(START, h.kept)) && Run(START, h.kept).open == st.open)
  {
    var st := Run(START, str);
    var b := BranchAt(st, str[|str| - 1]);
    RunFits(START, str);
    BracketsOnly(st.open);
    if CutsBack(b) {
      CutForChars(st, str[|str| - 1]);
      PrimitiveCutPlace(str, CutChars(b));
      CutWritten(b, str, ClosingOf(st.open), marker);
    } else {
      BranchSuits(st, str[|str| - 1]);
      WrittenParses(b, str, ClosingOf(st.open), marker);
    }
  }

  /** Healing any truncated text that does not stop inside an escape always succeeds. */
  lemma {:induction false} TruncatedTextHeals(str: string, marker: string)
    requires var st := Run(START, str); st.mode != Dead && st.open != [] && !Refused(st) && !MidEscape(st)
    requires LegalMarker(marker)
    ensures LastNonSpace(str) >= 0 && StackAfter(str) != []
    ensures var h := Heal(str, StackAfter(str), marker);
            && h.Healed? && CanParse(h.Text())
            && (!EndsInPrimitive(str) ==> h.kept == str)
            && (EndsInPrimitive(str) ==> h.kept <= str && AtValue(Run(START, h.kept)) && Run(START, h.kept).open == Run(START, str).open)
  {
    HealWrites(str, marker);
    TruncatedTextWrites(str, marker);
  }

  lemma {:induction false} CutWritesExactly(b: Branch, str: string, open: seq<Container>, marker: string)
    requires CutsBack(b) && LegalMarker(marker)
    ensures var h := Write(b, str, ClosingOf(open), marker);
            var p := FindLast(str, CutChars(b));
            h.Healed? && CanParse(h.Text()) <==> p >= 0 && AtValue(Run(START, str[..p + 1])) && Run(START, str[..p + 1]).open == open
  {
    BracketsOnly(open);
    var p := FindLast(str, CutChars(b));
    if p >= 0 {
      CutWritten(b, str, ClosingOf(open), marker);
      var there := Run(START, str[..p + 1]).open;
      if ClosingOf(there) == ClosingOf(open) {
        ClosingInjective(there, open);
      }
    }
  }

  lemma {:induction false} RefusedCuts(st: State, back: char)
    requires st.open != [] && (Refused(st) || MidEscape(st))
    ensures CutsBack(BranchAt(st, back))
    ensures CutChars(BranchAt(st, back)) == if TopIs(st.open, Arr) then {'[', ','} else {':'}
  {
  }

  lemma {:induction false} EscapedBranch(str: string, marker: string) returns (st: State, b: Branch)
    requires var st := Run(START, str); st.mode != Dead && st.open != [] && (Refused(st) || MidEscape(st))
    ensures LastNonSpace(str) >= 0 && StackAfter(str) != [] && st == Run(START, str)
    ensures Heal(str, StackAfter(str), marker) == Write(b, str, ClosingOf(st.open), marker)
    ensures CutsBack(b) && CutChars(b) == if TopIs(st.open, Arr) then {'[', ','} else {':'}
  {
    st := Run(START, str);
    HealWrites(str, marker);
    b := BranchAt(st, str[|str| - 1]);
    RefusedCuts(st, str[|str| - 1]);
  }

  /** A text that stops inside an escape, or at a token the grammar refuses: healing succeeds exactly when
      the character cut back to is structural and the same containers were open there. */
  lemma {:induction false} EscapedTextHealsExactly(str: string, marker: string)
    requires var st := Run(START, str); st.mode != Dead && st.open != [] && (Refused(st) || MidEscape(st))
    requires LegalMarker(marker)
    ensures LastNonSpace(str) >= 0 && StackAfter(str) != []
    ensures var st := Run(START, str);
            var h := Heal(str, StackAfter(str), marker);
            var p := FindLast(str, if TopIs(st.open, Arr) then {'[', ','} else {':'});
            h.Healed? && CanParse(h.Text()) <==> p >= 0 && AtValue(Run(START, str[..p + 1])) && Run(START, str[..p + 1]).open == st.open
  {
    var st, b := EscapedBranch(str, marker);
    CutWritesExactly(b, str, st.open, marker);
  }

  /** Where the first `json_dump_marker` of the healed text is, read off the state the text ends in. */
  lemma {:induction false} DigitMarkerExactly(str: string, marker: string)
    requires var st := Run(START, str); st.mode != Dead && st.open != []
    requires AllDigits(marker) && !Occurs(str, marker)
    ensures LastNonSpace(str) >= 0 && StackAfter(str) != []
    ensures var h := Heal(str, StackAfter(str), marker);
            h.Healed? ==>
              (Find(h.Text(), h.dumpMarker, 0) == |h.kept| <==>
               Lead(BranchAt(Run(START, str), str[|str| - 1])) != "" || forall p :: 0 < p < |marker| ==> !Straddles(str, marker, p))
  {
    BranchTaken(str);
    StackAfterTop(str);
    if Heal(str, StackAfter(str), marker).Healed? { DigitMarkerJoin(str, StackAfter(str), marker); }
  }
}
