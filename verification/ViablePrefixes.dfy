/** Which texts can still become JSON texts, and what the reported error position says about them. */
module ViablePrefixes {
  import opened JsonText
  import opened GrammarStrings
  import CommonJson
  import SaxEvents
  import G = JsonGrammar
  import GrammarTheorems
  import V = JsonValue

  /** Some continuation makes `s` a JSON text. */
  ghost predicate CanBegin(s: string) { exists t :: G.Padded(s + t) }

  // ----- states that no continuation saves

  /** Inside an escape whose digits already make a surrogate that cannot stand there. */
  predicate StuckIn(x: StrState) {
    x.Hex? && if x.second then (x.read == 1 && x.kind == Ordinary) || (x.read >= 2 && x.kind != Low) else x.kind == Low
  }

  predicate Stuck(st: State) { st.mode.In? && st.mode.tok.TStr? && StuckIn(st.mode.tok.s) }

  /** What holds of every state of the string scanner: how far an escape is, and which bytes may follow. */
  predicate SoundIn(x: StrState) {
    match x
    case Hex(read, kind, _) =>
      read < 4 && (read == 0 ==> kind == Fresh) && (read == 1 ==> kind == SawD || kind == Ordinary) &&
      (read >= 2 ==> kind == High || kind == Low || kind == Ordinary)
    case Utf8(lo, hi, more) => 0x80 as char <= lo <= hi <= 0xBF as char && more <= 2
    case _ => true
  }

  predicate Sound(st: State) { st.mode.In? && st.mode.tok.TStr? ==> SoundIn(st.mode.tok.s) }

  lemma {:induction false} StrSound(x: StrState, c: char)
    requires SoundIn(x) && StrStep(x, c).StrMore?
    ensures SoundIn(StrStep(x, c).s)
  {
  }

  lemma {:induction false} StepSound(st: State, c: char)
    requires Sound(st)
    ensures Sound(Step(st, c))
  {
    if st.mode.In? && st.mode.tok.TStr? && StrStep(st.mode.tok.s, c).StrMore? { StrSound(st.mode.tok.s, c); }
  }

  lemma {:induction false} RunSound(st: State, s: string)
    requires Sound(st)
    ensures Sound(Run(st, s))
    decreases |s|
  {
    if s != "" {
      StepSound(st, s[0]);
      RunSound(Step(st, s[0]), s[1..]);
    }
  }

  lemma {:induction false} StuckStep(x: StrState, c: char)
    requires SoundIn(x) && StuckIn(x)
    ensures !StrStep(x, c).StrMore? || StuckIn(StrStep(x, c).s)
    ensures StrStep(x, c) != StrClose
  {
  }

  /** Nothing is accepted after such an escape. */
  lemma {:induction false} StuckStays(st: State, s: string)
    requires Sound(st) && (Stuck(st) || st.mode == Dead)
    ensures Stuck(Run(st, s)) || Run(st, s).mode == Dead
    decreases |s|
  {
    if s != "" {
      if Stuck(st) { StuckStep(st.mode.tok.s, s[0]); }
      StepSound(st, s[0]);
      StuckStays(Step(st, s[0]), s[1..]);
    }
  }

  // ----- completing what can be completed

  function Zeros(n: nat): string { if n == 0 then "" else "0" + Zeros(n - 1) }

  function Bytes80(n: nat): string { if n == 0 then "" else [0x80 as char] + Bytes80(n - 1) }

  /** Leads the string scanner back between two characters. */
  function ToPlain(x: StrState): string
    requires SoundIn(x)
  {
    match x
    case Plain => ""
    case Esc => "n"
    case Hex(read, kind, second) =>
      if second then (if read == 0 then "dc00" else if read == 1 then "c00" else Zeros(4 - read))
      else if kind == High then Zeros(4 - read) + "\\udc00"
      else Zeros(4 - read)
    case NeedBackslash => "\\udc00"
    case NeedU => "udc00"
    case Utf8(lo, _, more) => [lo] + Bytes80(more)
  }

  lemma {:induction false} ZerosRun(read: nat, kind: HexKind, second: bool)
    requires 2 <= read < 4 && (kind == High || kind == Low || kind == Ordinary)
    ensures StrRun(Hex(read, kind, second), Zeros(4 - read)) == AfterHex(kind, second)
    decreases 4 - read
  {
    var t := Zeros(4 - read);
    assert t == ['0'] + Zeros(3 - read);
    StrConcat(Hex(read, kind, second), ['0'], Zeros(3 - read));
    StrRun1(Hex(read, kind, second), '0');
    if read < 3 { ZerosRun(read + 1, kind, second); }
  }

  lemma {:induction false} ZerosFromStart(read: nat, kind: HexKind)
    requires SoundIn(Hex(read, kind, false)) && kind != Low
    ensures StrRun(Hex(read, kind, false), Zeros(4 - read)) == AfterHex(if read < 2 then Ordinary else kind, false)
    decreases 4 - read
  {
    if read < 2 {
      var x := Hex(read, kind, false);
      assert Zeros(4 - read) == ['0'] + Zeros(3 - read);
      StrConcat(x, ['0'], Zeros(3 - read));
      StrRun1(x, '0');
      ZerosFromStart(read + 1, Ordinary);
    } else {
      ZerosRun(read, kind, false);
    }
  }

  lemma {:induction false} LowUnitRuns()
    ensures StrRun(NeedBackslash, "\\udc00") == StrMore(Plain)
    ensures StrRun(NeedU, "udc00") == StrMore(Plain)
    ensures StrRun(Hex(0, Fresh, true), "dc00") == StrMore(Plain)
    ensures StrRun(Hex(1, SawD, true), "c00") == StrMore(Plain)
  {
    HexFour("dc00", true);
    assert "udc00" == ['u'] + "dc00" && "\\udc00" == ['\\'] + "udc00" && "dc00" == ['d'] + "c00";
    StrConcat(NeedU, ['u'], "dc00");
    StrRun1(NeedU, 'u');
    StrConcat(NeedBackslash, ['\\'], "udc00");
    StrRun1(NeedBackslash, '\\');
    StrConcat(Hex(0, Fresh, true), ['d'], "c00");
    StrRun1(Hex(0, Fresh, true), 'd');
  }

  lemma {:induction false} Bytes80Run(more: nat)
    ensures StrRun(Utf8(0x80 as char, 0xBF as char, more), [0x80 as char] + Bytes80(more)) == StrMore(Plain)
    decreases more
  {
    var x := Utf8(0x80 as char, 0xBF as char, more);
    StrConcat(x, [0x80 as char], Bytes80(more));
    StrRun1(x, 0x80 as char);
    if more > 0 { Bytes80Run(more - 1); }
  }

  lemma {:induction false} Utf8Run(lo: char, hi: char, more: nat)
    requires SoundIn(Utf8(lo, hi, more))
    ensures StrRun(Utf8(lo, hi, more), [lo] + Bytes80(more)) == StrMore(Plain)
  {
    StrConcat(Utf8(lo, hi, more), [lo], Bytes80(more));
    StrRun1(Utf8(lo, hi, more), lo);
    if more > 0 { Bytes80Run(more - 1); }
  }

  lemma {:induction false} ToPlainRuns(x: StrState)
    requires SoundIn(x) && !StuckIn(x)
    ensures StrRun(x, ToPlain(x)) == StrMore(Plain)
  {
    match x {
      case Plain =>
      case Esc => StrRun1(Esc, 'n'); assert "n" == ['n'];
      case Hex(read, kind, second) =>
        LowUnitRuns();
        if second {
          if read >= 2 { ZerosRun(read, kind, true); }
        } else {
          ZerosFromStart(read, kind);
          StrConcat(x, Zeros(4 - read), "\\udc00");
        }
      case NeedBackslash => LowUnitRuns();
      case NeedU => LowUnitRuns();
      case Utf8(lo, hi, more) => Utf8Run(lo, hi, more);
    }
  }

  /** Leads to where a value has just ended, or a container could be closed. */
  function Finish(mode: Mode): string {
    match mode
    case Value => "null"
    case NextKey => "\"\":null"
    case Colon => ":null"
    case In(TNum(n), _) => if Complete(n) then "" else "0"
    case In(TLit(rest), _) => rest
    case In(TStr(x), role) => if SoundIn(x) then ToPlain(x) + "\"" + (if role == AsKey then ":null" else "") else ""
    case _ => ""
  }

  lemma {:induction false} NullRuns(open: seq<Container>)
    ensures Run(State(Value, open), "null") == State(After, open)
    ensures Run(State(Colon, open), ":null") == State(After, open)
  {
    assert "null" == ['n'] + "ull" && ":null" == [':'] + "null";
    V.LiteralRuns(State(Value, open), 'n', "ull");
    RunConcat(State(Colon, open), [':'], "null");
    RunOne(State(Colon, open), ':');
  }

  lemma {:induction false} KeyRuns(open: seq<Container>)
    ensures Run(State(NextKey, open), "\"\":null") == State(After, open)
  {
    assert "\"\":null" == ['"', '"'] + ":null";
    RunConcat(State(NextKey, open), ['"', '"'], ":null");
    Run2(State(NextKey, open), '"', '"');
    NullRuns(open);
    EmptyKey(open);
    hide Step, Run;
  }

  lemma {:induction false} EmptyKey(open: seq<Container>)
    ensures Step(Step(State(NextKey, open), '"'), '"') == State(Colon, open)
  {
  }

  lemma {:induction false} StringFinishes(x: StrState, role: Role, open: seq<Container>)
    requires SoundIn(x) && !StuckIn(x) && !role.Unexpected?
    ensures Run(State(In(TStr(x), role), open), Finish(In(TStr(x), role))) == State(After, open)
  {
    var st := State(In(TStr(x), role), open);
    var back, rest := ToPlain(x), if role == AsKey then ":null" else "";
    ToPlainRuns(x);
    GrammarTheorems.StrRunIs(x, Plain, role, open, back);
    RunConcat(st, back + "\"", rest);
    RunConcat(st, back, "\"");
    assert "\"" == ['"'];
    RunOne(State(In(TStr(Plain), role), open), '"');
    NullRuns(open);
  }

  lemma {:induction false} Finishes(st: State)
    requires Fits(st) && Sound(st) && !Lost(st) && !Stuck(st)
    ensures var q := Run(st, Finish(st.mode)); Ready(q) && q.open == st.open && Fits(q)
  {
    RunFits(st, Finish(st.mode));
    match st.mode {
      case Value => NullRuns(st.open);
      case NextKey => KeyRuns(st.open);
      case Colon => NullRuns(st.open);
      case In(TNum(n), role) =>
        assert "0" == ['0'];
        RunOne(st, '0');
      case In(TLit(rest), role) => V.LiteralRestRuns(st.open, rest);
      case In(TStr(x), role) => StringFinishes(x, role, st.open);
      case _ =>
    }
  }

  lemma {:induction false} OnlyBrackets(open: seq<Container>)
    ensures IsClosing(ClosingOf(open))
    decreases |open|
  {
    if open != [] { OnlyBrackets(open[..|open| - 1]); }
  }

  lemma {:induction false} Completed(st: State)
    requires Fits(st) && Sound(st) && !Lost(st) && !Stuck(st)
    ensures Accept(Run(st, Finish(st.mode) + ClosingOf(st.open)))
  {
    Finishes(st);
    RunConcat(st, Finish(st.mode), ClosingOf(st.open));
    OnlyBrackets(st.open);
    ClosesExactly(Run(st, Finish(st.mode)), ClosingOf(st.open));
  }

  /** A text can still become a JSON text exactly when the parser has not refused a character or a token of it
      and it does not stop inside an escape that has gone wrong. */
  lemma {:induction false} CanBeginExactly(s: string)
    ensures CanBegin(s) <==> !Lost(Run(START, s)) && !Stuck(Run(START, s))
  {
    var st := Run(START, s);
    RunFits(START, s);
    RunSound(START, s);
    if !Lost(st) && !Stuck(st) {
      var t := Finish(st.mode) + ClosingOf(st.open);
      Completed(st);
      RunConcat(START, s, t);
      GrammarTheorems.ParsesExactly(s + t);
    }
    if t :| G.Padded(s + t) {
      GrammarTheorems.ParsesExactly(s + t);
      RunConcat(START, s, t);
      if Lost(st) { LostStays(st, t); }
      if Stuck(st) { StuckStays(st, t); }
    }
  }

  /** The reported error position is behind everything that can begin a JSON text, and what comes before it
      can, unless it stops inside a token or an escape that had already gone wrong. */
  lemma {:induction false} ErrorPositionExactly(s: string, k: nat)
    requires !G.Padded(s) && k <= |s|
    ensures var p := SaxEvents.ErrorPosition(s);
            && 0 <= p <= |s| && (CanBegin(s[..k]) ==> k <= p)
            && (CanBegin(s[..p]) || Refused(Run(START, s[..p])) || Stuck(Run(START, s[..p])))
  {
    hide Run, Step, G.Padded, CanBegin, SaxEvents.ReadBefore, SaxEvents.Mirror;
    GrammarTheorems.ParsesExactly(s);
    SaxEvents.ErrorPositionState(s);
    var p, n := SaxEvents.ErrorPosition(s), SaxEvents.ReadBefore(START, s);
    CanBeginExactly(s[..p]);
    CanBeginExactly(s[..k]);
    SaxEvents.ReadBeforeRuns(START, s);
    if k > n { DeadBeyond(s, n, k); }
  }

  lemma {:induction false} DeadBeyond(s: string, n: nat, k: nat)
    requires n < k <= |s| && Step(Run(START, s[..n]), s[n]).mode == Dead
    ensures Lost(Run(START, s[..k]))
  {
    assert s[..k] == s[..n] + ([s[n]] + s[n + 1..k]);
    RunConcat(START, s[..n], [s[n]] + s[n + 1..k]);
    assert ([s[n]] + s[n + 1..k])[1..] == s[n + 1..k];
    DeadStays(Step(Run(START, s[..n]), s[n]), s[n + 1..k]);
  }

  /** What the function makes of any input: a JSON text is parsed as it is, and otherwise what comes before the
      error if that is one; without a marker, or outside all containers, nothing is parsed; the rest is healed,
      to a JSON text, or thrown. */
  lemma {:induction false} OutcomeExactly(s: string, marker: string)
    ensures var o := CommonJson.Outcomes(s, marker);
            if G.Padded(s) then o == CommonJson.Parsed(s, |s|, "", "")
            else
              var p := SaxEvents.ErrorPosition(s);
              0 <= p <= |s| &&
              if G.Padded(s[..p]) then o == CommonJson.Parsed(s[..p], p, "", "")
              else if marker == "" || Run(START, s[..p]).open == [] then o == CommonJson.NotParsed
              else o == CommonJson.Thrown || (o.Parsed? && o.upTo == p && o.marker == marker && G.Padded(o.text))
  {
    GrammarTheorems.ParsesExactly(s);
    var o := CommonJson.Outcomes(s, marker);
    if !G.Padded(s) {
      SaxEvents.ErrorPositionState(s);
      var p := SaxEvents.ErrorPosition(s);
      GrammarTheorems.ParsesExactly(s[..p]);
      SaxEvents.MirrorShape(Settled(Run(START, s[..p])));
      if o.Parsed? { GrammarTheorems.ParsesExactly(o.text); }
    }
  }
}
