/** `common_json_parse` as a whole: from any input to a parsed prefix, a healed text, or a refusal. */
module CommonJson {
  import opened Collections
  import opened JsonText
  import opened SaxEvents
  import opened Text
  import opened PartialJson
  import opened HealingTheorems

  /** `text` is what is handed to the final `json::parse`; `upTo` is where the iterator ends.
      `NotParsed` is the result false, `Thrown` a `std::runtime_error` or a parse exception. */
  datatype Outcome =
    | Parsed(text: string, upTo: nat, marker: string, dumpMarker: string)
    | NotParsed
    | Thrown

  lemma {:induction false} StackMeansText(s: string)
    requires !CanParse(s)
    ensures 0 <= ErrorPosition(s) <= |s|
    ensures StackAfter(s[..ErrorPosition(s)]) != [] ==> LastNonSpace(s[..ErrorPosition(s)]) >= 0
  {
    ErrorPositionState(s);
    MirrorShape(Settled(Run(START, s[..ErrorPosition(s)])));
    if StackAfter(s[..ErrorPosition(s)]) != [] {
      OpenNotBlank(s[..ErrorPosition(s)]);
    }
  }

  /** The outcome when neither the input nor the part before the error parses. */
  function HealedOutcome(str: string, marker: string): Outcome
    requires StackAfter(str) != [] ==> LastNonSpace(str) >= 0
  {
    if marker == "" || StackAfter(str) == [] then NotParsed
    else
      var h := Heal(str, StackAfter(str), marker);
      if h.Healed? && CanParse(h.Text()) then Parsed(h.Text(), |str|, marker, h.dumpMarker) else Thrown
  }

  /** What the function computes. */
  function Outcomes(input: string, marker: string): Outcome {
    if CanParse(input) then Parsed(input, |input|, "", "")
    else
      StackMeansText(input);
      var str := input[..ErrorPosition(input)];
      if CanParse(str) then Parsed(str, |str|, "", "") else HealedOutcome(str, marker)
  }

  /** No more is consumed than there is. */
  lemma {:induction false} OutcomeInside(input: string, marker: string)
    ensures Outcomes(input, marker).Parsed? ==> Outcomes(input, marker).upTo <= |input|
  {
    if !CanParse(input) { StackMeansText(input); }
  }

  lemma {:induction false} ClosingNext(stack: seq<Element>, i: nat)
    requires 0 < i <= |stack|
    ensures ClosingFor(stack[..i]) == ElementBracket(stack[i - 1]) + ClosingFor(stack[..i - 1])
  {
    assert stack[..i][..i - 1] == stack[..i - 1];
  }

  method BuildClosing(stack: seq<Element>) returns (closing: string)
    ensures closing == ClosingFor(stack)
  {
    closing := "";
    var i := |stack|;
    assert stack[..i] == stack;
    while i > 0
      invariant 0 <= i <= |stack|
      invariant closing + ClosingFor(stack[..i]) == ClosingFor(stack)
    {
      ClosingNext(stack, i);
      Associate(closing, ElementBracket(stack[i - 1]), ClosingFor(stack[..i - 1]));
      closing := closing + ElementBracket(stack[i - 1]);
      i := i - 1;
    }
  }

  method CommonJsonParse(input: string, healingMarker: string) returns (out: Outcome)
    ensures out == Outcomes(input, healingMarker)
  {
    var errLoc := new JsonErrorLocator();
    SaxParse(input, errLoc);
    if !errLoc.foundError {
      return Parsed(input, |input|, "", "");
    }
    StackMeansText(input);
    var position := errLoc.position;
    var str := input[..position];
    if CanParse(str) {
      return Parsed(str, position, "", "");
    }
    if healingMarker == "" || errLoc.stack == [] {
      return NotParsed;
    }
    var closing := BuildClosing(errLoc.stack);
    var branch := Choose(str, errLoc.stack, closing);
    if CutsBack(branch) {
      var lastPos := FindLast(str, CutChars(branch));
      if lastPos < 0 {
        return Thrown;
      }
      str := str[..lastPos + 1];
    } else {
      assert str[..|str|] == str;
    }
    var dumpMarker := Lead(branch) + healingMarker;
    str := str + dumpMarker + (Tail(branch) + closing);
    if !CanParse(str) {
      return Thrown;
    }
    return Parsed(str, position, healingMarker, dumpMarker);
  }

  // ----- truncated texts

  /** A text the grammar can still complete: not refused at any character or token. */
  predicate Truncated(s: string) {
    Run(START, s).mode != Dead && !Refused(Run(START, s)) && !CanParse(s)
  }

  lemma {:induction false} TruncatedPosition(s: string)
    requires Truncated(s)
    ensures ErrorPosition(s) == |s|
  {
    assert s[..|s|] == s;
    ReadBeforeAt(START, s, |s|);
  }

  /** A truncated text is healed, or thrown out when what healing leaves does not parse. */
  lemma {:induction false} TruncatedIsHealed(s: string, marker: string)
    requires Truncated(s) && Run(START, s).open != [] && marker != ""
    ensures LastNonSpace(s) >= 0 && StackAfter(s) != []
    ensures var h := Heal(s, StackAfter(s), marker);
            Outcomes(s, marker) == if h.Healed? && CanParse(h.Text()) then Parsed(h.Text(), |s|, marker, h.dumpMarker) else Thrown
  {
    TruncatedPosition(s);
    assert s[..|s|] == s;
    OpenNotBlank(s);
    StackAfterTop(s);
  }

  /** On every truncated text inside an object or array, the function succeeds, consumes everything and
      returns a text that parses and, unless a number or literal was cut, starts with the input. */
  lemma {:induction false} TruncatedOutcome(s: string, marker: string)
    requires Truncated(s) && Run(START, s).open != [] && !MidEscape(Run(START, s)) && LegalMarker(marker)
    ensures var o := Outcomes(s, marker);
            && o.Parsed? && o.upTo == |s| && o.marker == marker && CanParse(o.text)
            && (!EndsInPrimitive(s) ==> s + o.dumpMarker <= o.text)
  {
    TruncatedPosition(s);
    assert s[..|s|] == s;
    TruncatedTextHeals(s, marker);
  }

  /** On a truncated text that stops inside an escape the function throws, unless the last ':' (in an
      array the last '[' or ',') made a value due in the container the text stops in. */
  lemma {:induction false} EscapedOutcome(s: string, marker: string)
    requires Truncated(s) && Run(START, s).open != [] && MidEscape(Run(START, s)) && LegalMarker(marker)
    ensures var st := Run(START, s);
            var p := FindLast(s, if TopIs(st.open, Arr) then {'[', ','} else {':'});
            var place := p >= 0 && AtValue(Run(START, s[..p + 1])) && Run(START, s[..p + 1]).open == st.open;
            if place then Outcomes(s, marker).Parsed? && Outcomes(s, marker).upTo == |s| else Outcomes(s, marker) == Thrown
  {
    TruncatedPosition(s);
    assert s[..|s|] == s;
    EscapedTextHealsExactly(s, marker);
  }

  // ----- a complete value followed by other text

  function SkipBlanks(s: string): (r: string)
    ensures |r| <= |s| && r == s[|s| - |r|..]
    ensures forall i :: 0 <= i < |s| - |r| ==> IsSpace(s[i])
    ensures r != "" ==> !IsSpace(r[0])
    decreases |s|
  {
    if s != "" && IsSpace(s[0]) then SkipBlanks(s[1..]) else s
  }

  /** What follows starts with a token of more than one character (or of one the lexer reads past). */
  predicate StartsLongToken(s: string) {
    s != "" && StartsToken(s[0]) &&
    !(IsDigit(s[0]) && (|s| == 1 || NumStep(TokenFrom(s[0]).n, s[1]) == NumDone))
  }

  lemma {:induction false} SpacesInFront(st: State, s: string, i: nat)
    requires !st.mode.In? && i <= |s| && forall k :: 0 <= k < i ==> IsSpace(s[k])
    ensures Run(st, s[..i]) == st
    ensures ReadBefore(st, s) == i + ReadBefore(st, s[i..]) || st.mode == Dead
    decreases i
  {
    if i == 0 {
      assert s[0..] == s;
    } else {
      assert Step(st, s[0]) == st;
      SpacesInFront(st, s[1..], i - 1);
      assert s[..i][0] == s[0] && s[..i][1..] == s[1..][..i - 1];
      assert s[1..][i - 1..] == s[i..];
    }
  }

  lemma {:induction false} ReadBeforeSplit(st: State, a: string, b: string)
    requires st.mode != Dead && Run(st, a).mode != Dead
    ensures ReadBefore(st, a + b) == |a| + ReadBefore(Run(st, a), b)
    decreases |a|
  {
    if a == "" {
      assert a + b == b;
    } else {
      assert (a + b)[0] == a[0] && (a + b)[1..] == a[1..] + b;
      if Step(st, a[0]).mode == Dead { DeadStays(Step(st, a[0]), a[1..]); }
      ReadBeforeSplit(Step(st, a[0]), a[1..], b);
    }
  }

  const DONE := State(After, [])

  lemma {:induction false} JunkStep(st: State, c: char)
    requires st.open == [] && st.mode.In? && st.mode.role == Unexpected(After)
    ensures Step(st, c) == State(Dead, []) || (Step(st, c).mode.In? && Step(st, c).mode.role == Unexpected(After) && Step(st, c).open == [])
  {
  }

  predicate Junk(st: State) { st.open == [] && st.mode.In? && st.mode.role == Unexpected(After) }

  lemma {:induction false} JunkStays(st: State, s: string, k: nat)
    requires Junk(st) && k <= ReadBefore(st, s)
    ensures Junk(Run(st, s[..k]))
    decreases |s|
  {
    if k > 0 {
      JunkStep(st, s[0]);
      JunkStays(Step(st, s[0]), s[1..], k - 1);
      assert s[..k][0] == s[0] && s[..k][1..] == s[1..][..k - 1];
    }
  }

  lemma {:induction false} RunSplit(st: State, s: string, i: nat)
    requires i <= |s|
    ensures Run(st, s) == Run(Run(st, s[..i]), s[i..])
  {
    assert s == s[..i] + s[i..];
    RunConcat(st, s[..i], s[i..]);
  }

  /** After `at` characters of `s` a complete value has been read, and a non-blank follows. */
  predicate ValueEndsAt(s: string, at: nat) {
    && at <= |s| && Run(START, s[..at]) == DONE
    && (at < |s| ==> !IsSpace(s[at]))
    && ReadBefore(START, s) == at + ReadBefore(DONE, s[at..])
  }

  lemma {:induction false} JoinedParts(v: string, rest: string, n: nat)
    requires n <= |rest|
    ensures (v + rest)[..|v| + n] == v + rest[..n] && (v + rest)[|v| + n..] == rest[n..]
  {
  }

  lemma {:induction false} BlanksRead(v: string, rest: string, blanks: nat)
    requires Run(START, v) == DONE && blanks <= |rest| && forall k :: 0 <= k < blanks ==> IsSpace(rest[k])
    ensures Run(START, v + rest[..blanks]) == DONE
    ensures ReadBefore(START, v + rest) == |v| + blanks + ReadBefore(DONE, rest[blanks..])
  {
    SpacesInFront(DONE, rest, blanks);
    ReadBeforeSplit(START, v, rest);
    RunConcat(START, v, rest[..blanks]);
  }

  lemma {:induction false} EndsWith(s: string, at: nat, value: string, r: string)
    requires at <= |s| && s[..at] == value && s[at..] == r && Run(START, value) == DONE
    requires (r != "" ==> !IsSpace(r[0])) && ReadBefore(START, s) == at + ReadBefore(DONE, r)
    ensures ValueEndsAt(s, at)
  {
    if at < |s| { assert s[at] == r[0]; }
  }

  /** Where reading stops when a complete value is followed by `rest`. */
  lemma {:induction false} StopAfterValue(v: string, rest: string) returns (s: string, at: nat, r: string)
    requires Run(START, v) == DONE
    ensures s == v + rest && r == SkipBlanks(rest) && at + |r| == |s|
    ensures ValueEndsAt(s, at) && s[at..] == r
  {
    s, r := v + rest, SkipBlanks(rest);
    at := |s| - |r|;
    var blanks := |rest| - |r|;
    var value := v + rest[..blanks];
    BlanksRead(v, rest, blanks);
    JoinedParts(v, rest, blanks);
    EndsWith(s, at, value, r);
  }

  lemma {:induction false} StateAt(s: string, at: nat, k: nat)
    requires ValueEndsAt(s, at) && at + k <= |s|
    ensures Run(START, s[..at + k]) == Run(DONE, s[at..][..k])
  {
    RunSplit(START, s[..at + k], at);
    assert s[..at + k][..at] == s[..at] && s[..at + k][at..] == s[at..][..k];
  }

  lemma {:induction false} FirstAfterValue(r: string)
    requires r != "" && !IsSpace(r[0])
    ensures !StartsToken(r[0]) ==> ReadBefore(DONE, r) == 0
    ensures StartsToken(r[0]) ==> Junk(Step(DONE, r[0])) && ReadBefore(DONE, r) == 1 + ReadBefore(Step(DONE, r[0]), r[1..])
    ensures StartsToken(r[0]) ==>
              (StartsLongToken(r) <==> !(ReadBefore(DONE, r) == 1 && LookBack(Step(DONE, r[0])) == 1))
  {
  }

  lemma {:induction false} JunkRuns(r: string, k: nat)
    requires r != "" && StartsToken(r[0]) && !IsSpace(r[0]) && 0 < k <= ReadBefore(DONE, r)
    ensures Junk(Run(DONE, r[..k]))
    ensures k == 1 ==> Run(DONE, r[..k]) == Step(DONE, r[0])
  {
    FirstAfterValue(r);
    JunkStays(Step(DONE, r[0]), r[1..], k - 1);
    RunCons(DONE, r[0], r[1..][..k - 1]);
    assert r[..k] == [r[0]] + r[1..][..k - 1];
  }

  lemma {:induction false} JunkNotAccepted(st: State)
    requires Junk(st)
    ensures !Accept(st) && Mirror(Settled(st)) == []
  {
    assert Frame([]) == [];
    assert Settled(st) == st && !Pending(st);
  }

  lemma {:induction false} NotAcceptedWhenStopped(s: string, at: nat)
    requires ValueEndsAt(s, at) && at < |s|
    ensures !CanParse(s)
  {
    var r := s[at..];
    var n := ReadBefore(DONE, r);
    RunSplit(START, s, at);
    RunSplit(DONE, r, n);
    ReadBeforeRuns(DONE, r);
    FirstAfterValue(r);
    if n < |r| {
      RunCons(Run(DONE, r[..n]), r[n], r[n + 1..]);
      assert r[n..] == [r[n]] + r[n + 1..];
      DeadStays(Step(Run(DONE, r[..n]), r[n]), r[n + 1..]);
    } else {
      assert r[..n] == r;
      JunkRuns(r, n);
      JunkNotAccepted(Run(DONE, r));
    }
  }

  lemma {:induction false} JunkAt(s: string, at: nat, k: nat)
    requires ValueEndsAt(s, at) && at < |s| && StartsToken(s[at]) && 0 < k <= ReadBefore(DONE, s[at..])
    ensures Junk(Run(START, s[..at + k])) && (k == 1 ==> Run(START, s[..at + k]) == Step(DONE, s[at]))
  {
    StateAt(s, at, k);
    JunkRuns(s[at..], k);
  }

  /** The reported position, when a token follows a complete value. */
  lemma {:induction false} JunkPosition(s: string, at: nat)
    requires ValueEndsAt(s, at) && at < |s| && StartsToken(s[at])
    ensures var p := ErrorPosition(s);
            && at <= p <= |s|
            && (p == at <==> !StartsLongToken(s[at..]))
            && (p > at ==> Junk(Run(START, s[..p])))
  {
    var n := ReadBefore(DONE, s[at..]);
    FirstAfterValue(s[at..]);
    JunkAt(s, at, n);
    if n > 1 {
      JunkAt(s, at, n - 1);
    }
  }

  lemma {:induction false} TokenAfterValue(s: string, at: nat, marker: string)
    requires ValueEndsAt(s, at) && at < |s| && StartsToken(s[at])
    ensures Outcomes(s, marker) == if StartsLongToken(s[at..]) then NotParsed else Parsed(s[..at], at, "", "")
  {
    NotAcceptedWhenStopped(s, at);
    JunkPosition(s, at);
    if StartsLongToken(s[at..]) { JunkNotAccepted(Run(START, s[..ErrorPosition(s)])); }
  }

  lemma {:induction false} StopsAtValue(s: string, at: nat)
    requires ValueEndsAt(s, at) && at < |s| && !StartsToken(s[at])
    ensures ErrorPosition(s) == at && CanParse(s[..at])
  {
    FirstAfterValue(s[at..]);
  }

  lemma {:induction false} NoTokenAfterValue(s: string, at: nat, marker: string)
    requires ValueEndsAt(s, at) && (at < |s| ==> !StartsToken(s[at]))
    ensures Outcomes(s, marker) == Parsed(s[..at], at, "", "")
  {
    if at == |s| {
      assert s[..at] == s;
    } else {
      NotAcceptedWhenStopped(s, at);
      StopsAtValue(s, at);
    }
  }

  /** The outcome on a text whose first value and blanks end at `at`, followed by `r`. */
  predicate OutcomeAfter(s: string, at: nat, r: string, marker: string)
    requires at <= |s|
  {
    Outcomes(s, marker) == if StartsLongToken(r) then NotParsed else Parsed(s[..at], at, "", "")
  }

  lemma {:induction false} ValueEndsThen(s: string, at: nat, r: string, marker: string)
    requires ValueEndsAt(s, at) && s[at..] == r
    ensures OutcomeAfter(s, at, r, marker)
  {
    if at < |s| {
      assert r[0] == s[at];
      if StartsToken(s[at]) {
        TokenAfterValue(s, at, marker);
      } else {
        NoTokenAfterValue(s, at, marker);
      }
    } else {
      NoTokenAfterValue(s, at, marker);
    }
  }

  /** A complete value followed by other text is parsed up to that text, unless the text starts with a
      token the lexer reads more than one character of; then nothing is parsed. */
  lemma {:induction false} ValueThenText(v: string, rest: string, marker: string) returns (s: string, at: nat, r: string)
    requires Run(START, v) == DONE
    ensures s == v + rest && r == SkipBlanks(rest) && at + |r| == |s|
    ensures OutcomeAfter(s, at, r, marker)
  {
    s, at, r := StopAfterValue(v, rest);
    ValueEndsThen(s, at, r, marker);
  }

  // ----- where the promises fail

  lemma {:induction false} ItemStringWritten(s: string, marker: string)
    ensures var h := Write(ArrayString, s, ClosingOf([Arr]), marker);
            h.Healed? && h.Text() == s + marker + "\"]" && h.dumpMarker == marker
  {
    assert ClosingOf([Arr]) == "]" by { assert ClosingOf([]) == "" && [Arr][..0] == []; }
    assert "\"" + "]" == "\"]" && "" + marker == marker && s[..|s|] == s;
  }

  /** The outcome on a text that stops between the characters of an item string. */
  lemma {:induction false} ItemStringOutcome(s: string, marker: string)
    requires Run(START, s) == State(In(TStr(Plain), AsValue), [Arr]) && LegalMarker(marker)
    ensures Outcomes(s, marker) == Parsed(s + marker + "\"]", |s|, marker, marker)
  {
    hide Outcomes, Heal, CanParse, StackAfter, LegalMarker, Write, ClosingOf;
    assert Truncated(s) by { InsideIsTruncated(s); }
    MarkerNotEmpty(marker);
    TruncatedIsHealed(s, marker);
    HealWrites(s, marker);
    TruncatedTextHeals(s, marker);
    ItemStringWritten(s, marker);
  }

  lemma {:induction false} InsideIsTruncated(s: string)
    requires var st := Run(START, s); st.open != [] && st.mode != Dead && !Refused(st)
    ensures Truncated(s)
  {
  }

  lemma {:induction false} MarkerNotEmpty(m: string)
    requires LegalMarker(m)
    ensures m != ""
  {
  }

  lemma {:induction false} FoundEarly()
    ensures Find("[\"12" + "1212" + "\"]", "1212", 0) == 2 && !Occurs("[\"12", "1212")
  {
    var s := "[\"121212\"]";
    assert s == "[\"12" + "1212" + "\"]";
    assert s[2..6] == "1212";
    assert s[0..4][0] == '[' && s[1..5][0] == '"';
    FindIs(s, "1212", 0, 2);
    assert "[\"12"[0..4][0] == '[';
  }

  /** The marker is only checked against the input, not against the input's end: here `1212` is not in the
      input, yet in the healed text it first occurs two characters early. */
  lemma {:induction false} MarkerRunsOverTheEnd()
    ensures !Occurs("[\"12", "1212")
    ensures Outcomes("[\"12", "1212") == Parsed("[\"12" + "1212" + "\"]", 4, "1212", "1212")
    ensures Find("[\"12" + "1212" + "\"]", "1212", 0) == 2
  {
    hide Outcomes, Find, Occurs;
    FoundEarly();
    Run4(START, '[', '"', '1', '2');
    assert "[\"12" == ['[', '"', '1', '2'];
    DigitsAreLegal("1212");
    ItemStringOutcome("[\"12", "1212");
  }

  lemma {:induction false} BracketInsideStringState()
    ensures Run(START, "[\"[") == State(In(TStr(Plain), AsValue), [Arr])
    ensures Run(START, "[\"[\\u") == State(In(TStr(Hex(0, Fresh, false)), AsValue), [Arr])
  {
    Run3(START, '[', '"', '[');
    assert "[\"[" == ['[', '"', '['];
    assert "[\"[\\u" == "[\"[" + ['\\', 'u'];
    RunConcat(START, "[\"[", ['\\', 'u']);
    Run2(State(In(TStr(Plain), AsValue), [Arr]), '\\', 'u');
  }

  /** A string that stops inside a `\u` escape after a bracket of its own cannot be healed. */
  lemma {:induction false} BracketInsideString(marker: string)
    requires LegalMarker(marker)
    ensures Outcomes("[\"[\\u", marker) == Thrown
  {
    var s := "[\"[\\u";
    BracketInsideStringState();
    FindLastIs(s, {'[', ','}, 2);
    assert s[..3] == "[\"[";
    EscapedOutcome(s, marker);
  }
}
