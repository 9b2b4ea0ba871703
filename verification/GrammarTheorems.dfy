/** `json::parse` accepts exactly the JSON texts of the grammar. */
module GrammarTheorems {
  import opened JsonText
  import opened GrammarTokens
  import opened GrammarStrings
  import G = JsonGrammar
  import V = JsonValue

  // ----- every text of the grammar is accepted

  predicate AtValue(st: State) { st.mode == Value || st.mode == FirstElem }

  lemma {:induction false} BlanksStay(st: State, s: string)
    requires G.Ws(s) && !st.mode.In?
    ensures Run(st, s) == st
    decreases |s|
  {
    if s != "" { BlanksStay(st, s[1..]); }
  }

  /** Blanks after a value end it, if it was a number, and nothing else. */
  lemma {:induction false} BlanksSettle(st: State, s: string)
    requires G.Ws(s) && Settled(st).mode == After
    ensures Settled(Run(st, s)) == Settled(st)
  {
    if s != "" { BlanksStay(Step(st, s[0]), s[1..]); }
  }

  lemma {:induction false} RunParts(st: State, s: string, a: nat, b: nat)
    requires a <= b <= |s|
    ensures Run(st, s) == Run(Run(Run(st, s[..a]), s[a..b]), s[b..])
  {
    assert s == s[..b] + s[b..] && s[..b] == s[..a] + s[a..b];
    RunConcat(st, s[..b], s[b..]);
    RunConcat(st, s[..a], s[a..b]);
  }

  lemma {:induction false} NumRunIs(n: NumState, m: NumState, role: Role, open: seq<Container>, t: string)
    requires NumRun(n, t) == NumMore(m)
    ensures Run(State(In(TNum(n), role), open), t) == State(In(TNum(m), role), open)
    decreases |t|
  {
    if t != "" { NumRunIs(NumStep(n, t[0]).n, m, role, open, t[1..]); }
  }

  lemma {:induction false} NumberRuns(st: State, s: string)
    requires AtValue(st) && G.Number(s)
    ensures Settled(Run(st, s)) == State(After, st.open)
  {
    NumberExactly(s);
    V.FirstChar(st, s[0]);
    NumRunIs(TokenFrom(s[0]).n, NumRun(TokenFrom(s[0]).n, s[1..]).n, AsValue, st.open, s[1..]);
  }

  lemma {:induction false} StrRunIs(x: StrState, y: StrState, role: Role, open: seq<Container>, t: string)
    requires StrRun(x, t) == StrMore(y)
    ensures Run(State(In(TStr(x), role), open), t) == State(In(TStr(y), role), open)
    decreases |t|
  {
    if t != "" { StrRunIs(StrStep(x, t[0]).s, y, role, open, t[1..]); }
  }

  /** A string, read where `role` is the part a string plays, ends its token. */
  lemma {:induction false} StringRuns(st: State, role: Role, s: string)
    requires G.StringToken(s) && Step(st, '"') == State(In(TStr(Plain), role), st.open)
    ensures Run(st, s) == EndToken(role, st.open)
  {
    var body := s[1..|s| - 1];
    RunParts(st, s, 1, |s| - 1);
    assert s[..1] == "\"" && s[|s| - 1..] == "\"";
    RunOne(st, '"');
    CharactersExactly(body);
    StrRunIs(Plain, Plain, role, st.open, body);
    RunOne(State(In(TStr(Plain), role), st.open), '"');
  }

  lemma {:induction false} LiteralRuns(st: State, s: string)
    requires AtValue(st) && G.Literal(s)
    ensures Run(st, s) == State(After, st.open)
  {
    assert s == [s[0]] + s[1..];
    V.LiteralRuns(st, s[0], s[1..]);
  }

  lemma {:induction false} ValueRuns(st: State, s: string)
    requires AtValue(st) && G.Value(s)
    ensures Settled(Run(st, s)) == State(After, st.open)
    decreases |s|, 0
  {
    if G.Literal(s) {
      LiteralRuns(st, s);
    } else if G.Number(s) {
      NumberRuns(st, s);
    } else if G.StringToken(s) {
      StringRuns(st, AsValue, s);
    } else {
      var body := s[1..|s| - 1];
      assert s == [s[0]] + body + [s[|s| - 1]];
      if s[0] == '[' { ArrayRuns(st, body); } else { ObjectRuns(st, body); }
    }
  }

  lemma {:induction false} ArrayRuns(st: State, body: string)
    requires AtValue(st) && (G.Ws(body) || G.Elements(body))
    ensures Run(st, ['['] + body + [']']) == State(After, st.open)
    decreases |body|, 3
  {
    var inner := State(FirstElem, st.open + [Arr]);
    if G.Ws(body) { BlanksStay(inner, body); } else { ElementsRun(inner, body); }
    V.BracketedRuns(st, '[', inner, body, ']');
  }

  lemma {:induction false} ObjectRuns(st: State, body: string)
    requires AtValue(st) && (G.Ws(body) || G.Members(body))
    ensures Run(st, ['{'] + body + ['}']) == State(After, st.open)
    decreases |body|, 4
  {
    var inner := State(FirstKey, st.open + [Obj]);
    if G.Ws(body) { BlanksStay(inner, body); } else { MembersRun(inner, body); }
    V.BracketedRuns(st, '{', inner, body, '}');
  }

  lemma {:induction false} PaddedRuns(st: State, s: string)
    requires AtValue(st) && G.Padded(s)
    ensures Settled(Run(st, s)) == State(After, st.open)
    decreases |s|, 1
  {
    var a, b :| 0 <= a <= b <= |s| && G.Ws(s[..a]) && G.Ws(s[b..]) && G.Value(s[a..b]);
    RunParts(st, s, a, b);
    BlanksStay(st, s[..a]);
    ValueRuns(st, s[a..b]);
    BlanksSettle(Run(st, s[a..b]), s[b..]);
  }

  /** The comma that follows a value. */
  lemma {:induction false} CommaRuns(st: State, s: string, i: nat)
    requires i < |s| && s[i] == ',' && Settled(Run(st, s[..i])) == State(After, st.open) && st.open != []
    ensures Run(st, s) == Run(State(if TopIs(st.open, Obj) then NextKey else Value, st.open), s[i + 1..])
  {
    RunParts(st, s, i, i + 1);
    assert s[i..i + 1] == [s[i]];
    RunOne(Run(st, s[..i]), ',');
    V.SettledStep(Run(st, s[..i]), ',');
  }

  lemma {:induction false} ElementsRun(st: State, s: string)
    requires AtValue(st) && TopIs(st.open, Arr) && G.Elements(s)
    ensures Settled(Run(st, s)) == State(After, st.open)
    decreases |s|, 2
  {
    if G.Padded(s) {
      PaddedRuns(st, s);
    } else {
      var i :| 0 <= i < |s| && s[i] == ',' && G.Padded(s[..i]) && G.Elements(s[i + 1..]);
      PaddedRuns(st, s[..i]);
      CommaRuns(st, s, i);
      ElementsRun(State(Value, st.open), s[i + 1..]);
    }
  }

  lemma {:induction false} NameRuns(st: State, s: string, a: nat, b: nat, c: nat)
    requires (st.mode == FirstKey || st.mode == NextKey) && TopIs(st.open, Obj)
    requires a <= b <= c < |s| && s[c] == ':' && G.Ws(s[..a]) && G.StringToken(s[a..b]) && G.Ws(s[b..c])
    ensures Run(st, s) == Run(State(Value, st.open), s[c + 1..])
  {
    hide G.Ws, G.StringToken, Run;
    RunParts(st, s, c, c + 1);
    assert s[c..c + 1] == [':'];
    RunParts(st, s[..c], a, b);
    assert s[..c][..a] == s[..a] && s[..c][a..b] == s[a..b] && s[..c][b..] == s[b..c];
    BlanksStay(st, s[..a]);
    StringRuns(st, AsKey, s[a..b]);
    BlanksStay(State(Colon, st.open), s[b..c]);
    RunOne(State(Colon, st.open), ':');
  }

  lemma {:induction false} NameValueRuns(st: State, s: string)
    requires (st.mode == FirstKey || st.mode == NextKey) && TopIs(st.open, Obj) && G.NameValue(s)
    ensures Settled(Run(st, s)) == State(After, st.open)
    decreases |s|, 2
  {
    var a, b, c :| 0 <= a <= b <= c < |s| && s[c] == ':' && G.Ws(s[..a]) && G.StringToken(s[a..b]) && G.Ws(s[b..c]) && G.Padded(s[c + 1..]);
    NameRuns(st, s, a, b, c);
    PaddedRuns(State(Value, st.open), s[c + 1..]);
  }

  lemma {:induction false} MembersRun(st: State, s: string)
    requires (st.mode == FirstKey || st.mode == NextKey) && TopIs(st.open, Obj) && G.Members(s)
    ensures Settled(Run(st, s)) == State(After, st.open)
    decreases |s|, 3
  {
    if G.NameValue(s) {
      NameValueRuns(st, s);
    } else {
      var i :| 0 <= i < |s| && s[i] == ',' && G.NameValue(s[..i]) && G.Members(s[i + 1..]);
      NameValueRuns(st, s[..i]);
      CommaRuns(st, s, i);
      MembersRun(State(NextKey, st.open), s[i + 1..]);
    }
  }

  // ----- every text that is accepted is one of the grammar

  /** Reading `s` from `st` ends with a complete value, with at most `depth` containers open. */
  predicate Ends(st: State, s: string, depth: int) {
    Settled(Run(st, s)).mode == After && |Run(st, s).open| <= depth
  }

  /** Reading `s` from `st` comes to what reading `t` from `q` comes to, up to a number that has just ended. */
  predicate Same(st: State, s: string, q: State, t: string) {
    Settled(Run(st, s)) == Settled(Run(q, t))
  }

  lemma {:induction false} EndsSame(st: State, s: string, q: State, t: string, depth: int)
    requires Ends(st, s, depth) && Same(st, s, q, t)
    ensures Ends(q, t, depth)
  {
  }

  lemma {:induction false} NeverLost(st: State, s: string, depth: int)
    requires Ends(st, s, depth)
    ensures !Lost(st)
  {
    if Lost(st) { LostStays(st, s); }
  }

  lemma {:induction false} EndsStep(st: State, s: string, depth: int)
    requires s != "" && Ends(st, s, depth)
    ensures Ends(Step(st, s[0]), s[1..], depth) && !Lost(Step(st, s[0]))
  {
    hide Step;
    NeverLost(Step(st, s[0]), s[1..], depth);
  }

  /** The blanks at the front. */
  function Leading(s: string): (a: nat)
    ensures a <= |s| && G.Ws(s[..a]) && (a < |s| ==> !IsSpace(s[a]))
  {
    if s == "" || !IsSpace(s[0]) then 0 else Leading(s[1..]) + 1
  }

  lemma {:induction false} LeadingSame(st: State, s: string)
    requires !st.mode.In?
    ensures Run(st, s) == Run(st, s[Leading(s)..])
  {
    var a := Leading(s);
    assert s == s[..a] + s[a..];
    RunConcat(st, s[..a], s[a..]);
    BlanksStay(st, s[..a]);
  }

  // ----- tokens

  lemma {:induction false} NumberPart(n: NumState, open: seq<Container>, t: string, depth: int) returns (k: nat)
    requires Ends(State(In(TNum(n), AsValue), open), t, depth)
    ensures k <= |t| && NumRest(n, t[..k]) && Same(State(In(TNum(n), AsValue), open), t, State(After, open), t[k..])
    decreases |t|
  {
    if t == "" {
      k := 0;
    } else {
      EndsStep(State(In(TNum(n), AsValue), open), t, depth);
      if NumStep(n, t[0]).NumMore? {
        k := NumberPart(NumStep(n, t[0]).n, open, t[1..], depth);
        k := k + 1;
        assert t[..k][0] == t[0] && t[..k][1..] == t[1..][..k - 1] && t[k..] == t[1..][k - 1..];
      } else {
        k := 0;
        assert t[0..] == t;
      }
    }
  }

  lemma {:induction false} StringPart(x: StrState, role: Role, open: seq<Container>, t: string, depth: int) returns (k: nat)
    requires Ends(State(In(TStr(x), role), open), t, depth)
    ensures k < |t| && t[k] == '"' && StrRun(x, t[..k]) == StrMore(Plain)
    ensures Run(State(In(TStr(x), role), open), t) == Run(EndToken(role, open), t[k + 1..])
    decreases |t|
  {
    assert t != "";
    EndsStep(State(In(TStr(x), role), open), t, depth);
    if StrStep(x, t[0]).StrMore? {
      k := StringPart(StrStep(x, t[0]).s, role, open, t[1..], depth);
      k := k + 1;
      assert t[..k][0] == t[0] && t[..k][1..] == t[1..][..k - 1];
      assert t[1..][k..] == t[k + 1..];
    } else {
      k := 0;
    }
  }

  lemma {:induction false} LiteralPart(rest: string, open: seq<Container>, t: string, depth: int)
    requires rest != "" && Ends(State(In(TLit(rest), AsValue), open), t, depth)
    ensures rest <= t && Run(State(In(TLit(rest), AsValue), open), t) == Run(State(After, open), t[|rest|..])
    decreases |t|
  {
    assert t != "";
    EndsStep(State(In(TLit(rest), AsValue), open), t, depth);
    if |rest| > 1 {
      LiteralPart(rest[1..], open, t[1..], depth);
      assert t[1..][|rest| - 1..] == t[|rest|..];
    }
  }

  /** A value that is one token, at the front of `s`. */
  lemma {:induction false} TokenPart(open: seq<Container>, s: string, depth: int) returns (k: nat)
    requires s != "" && StartsToken(s[0]) && Ends(State(Value, open), s, depth)
    ensures 0 < k <= |s| && G.Value(s[..k]) && Same(State(Value, open), s, State(After, open), s[k..])
  {
    var c := s[0];
    V.FirstChar(State(Value, open), c);
    EndsStep(State(Value, open), s, depth);
    if c == '"' {
      var i := StringPart(Plain, AsValue, open, s[1..], depth);
      k := i + 2;
      QuotedToken(s, i);
      assert s[1..][i + 1..] == s[k..];
    } else if c == '-' || IsDigit(c) {
      var i := NumberPart(TokenFrom(c).n, open, s[1..], depth);
      k := i + 1;
      assert s[..k][0] == c && s[..k][1..] == s[1..][..i] && s[k..] == s[1..][i..];
      NumberExactly(s[..k]);
    } else {
      var rest := TokenFrom(c).rest;
      LiteralPart(rest, open, s[1..], depth);
      k := |rest| + 1;
      assert s[..k] == [c] + rest && s[1..][|rest|..] == s[k..];
    }
  }

  lemma {:induction false} QuotedToken(s: string, i: nat)
    requires i + 1 < |s| && s[0] == '"' && s[1..][i] == '"' && StrRun(Plain, s[1..][..i]) == StrMore(Plain)
    ensures G.StringToken(s[..i + 2])
  {
    CharactersExactly(s[1..][..i]);
    assert s[..i + 2][1..|s[..i + 2]| - 1] == s[1..][..i];
  }

  // ----- values

  /** The first value of `s`, which does not begin with a blank. */
  lemma {:induction false} ValuePart(open: seq<Container>, s: string) returns (k: nat)
    requires s != "" && !IsSpace(s[0]) && Ends(State(Value, open), s, |open|)
    ensures 0 < k <= |s| && G.Value(s[..k]) && Same(State(Value, open), s, State(After, open), s[k..])
    decreases |s|, 0
  {
    EndsStep(State(Value, open), s, |open|);
    if s[0] == '[' {
      assert (open + [Arr])[..|open|] == open;
      var i := ArrayPart(open + [Arr], s[1..]);
      k := i + 2;
      assert s[..k][1..|s[..k]| - 1] == s[1..][..i] && s[k..] == s[1..][i + 1..];
    } else if s[0] == '{' {
      assert (open + [Obj])[..|open|] == open;
      var i := ObjectPart(open + [Obj], s[1..]);
      k := i + 2;
      assert s[..k][1..|s[..k]| - 1] == s[1..][..i] && s[k..] == s[1..][i + 1..];
    } else {
      assert StartsToken(s[0]);
      k := TokenPart(open, s, |open|);
    }
  }

  /** The first value of `s`, with the blanks around it. */
  lemma {:induction false} PaddedPart(open: seq<Container>, s: string) returns (b: nat)
    requires Ends(State(Value, open), s, |open|)
    ensures b <= |s| && G.Padded(s[..b]) && (b < |s| ==> !IsSpace(s[b])) && Same(State(Value, open), s, State(After, open), s[b..])
    decreases |s|, 1
  {
    hide G.Ws, G.Value, G.Padded, Step;
    var a := Leading(s);
    LeadingSame(State(Value, open), s);
    assert a < |s|;
    var k := ValuePart(open, s[a..]);
    var rest := s[a..][k..];
    LeadingSame(State(After, open), rest);
    b := a + k + Leading(rest);
    PaddedSlices(s, a, k, Leading(rest));
  }

  lemma {:induction false} PaddedSlices(s: string, a: nat, k: nat, c: nat)
    requires a + k + c <= |s| && G.Ws(s[..a]) && G.Value(s[a..][..k]) && G.Ws(s[a..][k..][..c])
    ensures G.Padded(s[..a + k + c]) && s[a..][k..][c..] == s[a + k + c..]
    ensures a + k + c < |s| ==> s[a..][k..][c] == s[a + k + c]
  {
    hide G.Ws, G.Value;
    var t := s[..a + k + c];
    assert t[..a] == s[..a] && t[a..a + k] == s[a..][..k] && t[a + k..] == s[a..][k..][..c];
  }

  /** The elements of an array, up to its bracket. */
  lemma {:induction false} ElementsPart(open: seq<Container>, s: string) returns (k: nat)
    requires TopIs(open, Arr) && Ends(State(Value, open), s, |open| - 1)
    ensures k < |s| && s[k] == ']' && G.Elements(s[..k])
    ensures Same(State(Value, open), s, State(After, open[..|open| - 1]), s[k + 1..])
    decreases |s|, 2
  {
    hide G.Padded, Step, Run;
    var b := PaddedPart(open, s);
    EndsSame(State(Value, open), s, State(After, open), s[b..], |open| - 1);
    ValueFollowed(open, s, b);
    if s[b] == ']' {
      k := b;
    } else {
      var i := ElementsPart(open, s[b + 1..]);
      k := b + 1 + i;
      ElementsJoin(s, b, i);
    }
  }

  /** What follows a value in a container that ends later: its bracket, or a comma. */
  lemma {:induction false} ValueFollowed(open: seq<Container>, s: string, b: nat)
    requires open != [] && b <= |s| && (b < |s| ==> !IsSpace(s[b])) && Ends(State(After, open), s[b..], |open| - 1)
    ensures b < |s| && (s[b] == Bracket(open[|open| - 1]) || s[b] == ',')
    ensures s[b] == ',' ==> Run(State(After, open), s[b..]) == Run(State(if TopIs(open, Obj) then NextKey else Value, open), s[b + 1..])
    ensures s[b] != ',' ==> Run(State(After, open), s[b..]) == Run(State(After, open[..|open| - 1]), s[b + 1..])
  {
    assert b < |s|;
    EndsStep(State(After, open), s[b..], |open| - 1);
    assert s[b..][0] == s[b] && s[b..][1..] == s[b + 1..];
  }

  lemma {:induction false} ElementsJoin(s: string, b: nat, i: nat)
    requires b + 1 + i < |s| && s[b] == ',' && G.Padded(s[..b]) && G.Elements(s[b + 1..][..i])
    ensures G.Elements(s[..b + 1 + i]) && s[b + 1..][i + 1..] == s[b + 1 + i + 1..]
  {
    hide G.Padded;
    var t := s[..b + 1 + i];
    assert t[..b] == s[..b] && t[b + 1..] == s[b + 1..][..i];
  }

  lemma {:induction false} ArrayPart(open: seq<Container>, s: string) returns (k: nat)
    requires TopIs(open, Arr) && Ends(State(FirstElem, open), s, |open| - 1)
    ensures k < |s| && s[k] == ']' && (G.Ws(s[..k]) || G.Elements(s[..k]))
    ensures Same(State(FirstElem, open), s, State(After, open[..|open| - 1]), s[k + 1..])
    decreases |s|, 3
  {
    var a := Leading(s);
    hide Step, G.Ws, G.Elements;
    LeadingSame(State(FirstElem, open), s);
    LeadingSame(State(Value, open), s);
    assert a < |s|;
    assert s[a..][0] == s[a] && s[a..][1..] == s[a + 1..];
    FirstOfArray(open, s[a..]);
    if s[a] == ']' {
      k := a;
    } else {
      k := ElementsPart(open, s);
    }
  }

  lemma {:induction false} FirstOfArray(open: seq<Container>, s: string)
    requires s != "" && !IsSpace(s[0]) && TopIs(open, Arr)
    ensures s[0] == ']' ==> Run(State(FirstElem, open), s) == Run(State(After, open[..|open| - 1]), s[1..])
    ensures s[0] != ']' ==> Run(State(FirstElem, open), s) == Run(State(Value, open), s)
  {
  }

  // ----- members

  lemma {:induction false} NamePart(open: seq<Container>, s: string) returns (a: nat, b: nat, c: nat)
    requires Ends(State(NextKey, open), s, |open| - 1)
    ensures a <= b <= c < |s| && s[c] == ':' && G.Ws(s[..a]) && G.StringToken(s[a..b]) && G.Ws(s[b..c])
    ensures Run(State(NextKey, open), s) == Run(State(Value, open), s[c + 1..])
  {
    hide G.Ws, G.StringToken, Run, Step, Settled;
    a := Leading(s);
    LeadingSame(State(NextKey, open), s);
    var k, i := KeyAndColon(open, s[a..]);
    b, c := a + k, a + i;
    SliceOfRest(s, a, k, i);
  }

  lemma {:induction false} SliceOfRest(s: string, a: nat, k: nat, i: nat)
    requires k <= i < |s| - a
    ensures s[a..][..k] == s[a..a + k] && s[a..][k..i] == s[a + k..a + i] && s[a..][i + 1..] == s[a + i + 1..]
  {
  }

  lemma {:induction false} KeyAndColon(open: seq<Container>, s: string) returns (k: nat, c: nat)
    requires (s != "" ==> !IsSpace(s[0])) && Ends(State(NextKey, open), s, |open| - 1)
    ensures k <= c < |s| && s[c] == ':' && G.StringToken(s[..k]) && G.Ws(s[k..c])
    ensures Run(State(NextKey, open), s) == Run(State(Value, open), s[c + 1..])
  {
    hide G.Ws, G.StringToken, Run, Step, Settled;
    k := KeyPart(open, s);
    ColonPart(open, s[k..]);
    c := k + Leading(s[k..]);
    assert s[k..][..c - k] == s[k..c] && s[k..][c - k + 1..] == s[c + 1..];
  }

  lemma {:induction false} KeyPart(open: seq<Container>, s: string) returns (k: nat)
    requires (s != "" ==> !IsSpace(s[0])) && Ends(State(NextKey, open), s, |open| - 1)
    ensures k <= |s| && G.StringToken(s[..k]) && Run(State(NextKey, open), s) == Run(State(Colon, open), s[k..])
  {
    EndsStep(State(NextKey, open), s, |open| - 1);
    assert s[0] == '"';
    var i := StringPart(Plain, AsKey, open, s[1..], |open| - 1);
    k := i + 2;
    QuotedToken(s, i);
    assert s[1..][i + 1..] == s[k..];
  }

  lemma {:induction false} ColonPart(open: seq<Container>, s: string)
    requires Ends(State(Colon, open), s, |open| - 1)
    ensures var a := Leading(s); a < |s| && s[a] == ':' && Run(State(Colon, open), s) == Run(State(Value, open), s[a + 1..])
  {
    var a := Leading(s);
    LeadingSame(State(Colon, open), s);
    assert a < |s|;
    assert s[a..][0] == s[a] && s[a..][1..] == s[a + 1..];
    EndsStep(State(Colon, open), s[a..], |open| - 1);
  }

  lemma {:induction false} NameValuePart(open: seq<Container>, s: string) returns (b: nat)
    requires Ends(State(NextKey, open), s, |open| - 1)
    ensures b <= |s| && G.NameValue(s[..b]) && (b < |s| ==> !IsSpace(s[b])) && Same(State(NextKey, open), s, State(After, open), s[b..])
    decreases |s|, 1
  {
    var x, y, z := NamePart(open, s);
    var i := PaddedPart(open, s[z + 1..]);
    b := z + 1 + i;
    var t := s[..b];
    assert t[..x] == s[..x] && t[x..y] == s[x..y] && t[y..z] == s[y..z] && t[z + 1..] == s[z + 1..][..i];
    assert s[z + 1..][i..] == s[b..];
  }

  /** The members of an object, up to its brace. */
  lemma {:induction false} MembersPart(open: seq<Container>, s: string) returns (k: nat)
    requires TopIs(open, Obj) && Ends(State(NextKey, open), s, |open| - 1)
    ensures k < |s| && s[k] == '}' && G.Members(s[..k])
    ensures Same(State(NextKey, open), s, State(After, open[..|open| - 1]), s[k + 1..])
    decreases |s|, 2
  {
    hide G.NameValue, Step, Run;
    var b := NameValuePart(open, s);
    EndsSame(State(NextKey, open), s, State(After, open), s[b..], |open| - 1);
    ValueFollowed(open, s, b);
    if s[b] == '}' {
      k := b;
    } else {
      var i := MembersPart(open, s[b + 1..]);
      k := b + 1 + i;
      MembersJoin(s, b, i);
    }
  }

  lemma {:induction false} MembersJoin(s: string, b: nat, i: nat)
    requires b + 1 + i < |s| && s[b] == ',' && G.NameValue(s[..b]) && G.Members(s[b + 1..][..i])
    ensures G.Members(s[..b + 1 + i]) && s[b + 1..][i + 1..] == s[b + 1 + i + 1..]
  {
    hide G.NameValue;
    var t := s[..b + 1 + i];
    assert t[..b] == s[..b] && t[b + 1..] == s[b + 1..][..i];
  }

  lemma {:induction false} ObjectPart(open: seq<Container>, s: string) returns (k: nat)
    requires TopIs(open, Obj) && Ends(State(FirstKey, open), s, |open| - 1)
    ensures k < |s| && s[k] == '}' && (G.Ws(s[..k]) || G.Members(s[..k]))
    ensures Same(State(FirstKey, open), s, State(After, open[..|open| - 1]), s[k + 1..])
    decreases |s|, 3
  {
    var a := Leading(s);
    hide Step, G.Ws, G.Members;
    LeadingSame(State(FirstKey, open), s);
    LeadingSame(State(NextKey, open), s);
    assert a < |s|;
    assert s[a..][0] == s[a] && s[a..][1..] == s[a + 1..];
    FirstOfObject(open, s[a..]);
    if s[a] == '}' {
      k := a;
    } else {
      k := MembersPart(open, s);
    }
  }

  lemma {:induction false} FirstOfObject(open: seq<Container>, s: string)
    requires s != "" && !IsSpace(s[0]) && TopIs(open, Obj) && Ends(State(FirstKey, open), s, |open| - 1)
    ensures s[0] == '}' || s[0] == '"'
    ensures s[0] == '}' ==> Run(State(FirstKey, open), s) == Run(State(After, open[..|open| - 1]), s[1..])
    ensures s[0] == '"' ==> Run(State(FirstKey, open), s) == Run(State(NextKey, open), s)
  {
    EndsStep(State(FirstKey, open), s, |open| - 1);
  }

  lemma {:induction false} NothingFollows(s: string)
    requires (s != "" ==> !IsSpace(s[0])) && Ends(State(After, []), s, 0)
    ensures s == ""
  {
    if s != "" { EndsStep(State(After, []), s, 0); }
  }

  /** A text parses exactly when it is a JSON text of the grammar. */
  lemma {:induction false} ParsesExactly(s: string)
    ensures CanParse(s) <==> G.Padded(s)
  {
    if CanParse(s) {
      var b := PaddedPart([], s);
      EndsSame(START, s, State(After, []), s[b..], 0);
      NothingFollows(s[b..]);
      assert s[..b] == s;
    }
    if G.Padded(s) { PaddedRuns(START, s); }
  }
}
