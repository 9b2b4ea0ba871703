/** JSON values and their compact dump, as `json::dump()` writes it. */
module JsonValue {
  import opened JsonText
  import opened Text

  /** A number is kept as the text it dumps to. */
  datatype Json =
    | Null
    | Bool(b: bool)
    | Num(text: string)
    | Str(s: string)
    | Array(items: seq<Json>)
    | Object(members: seq<Member>)

  datatype Member = Member(key: string, value: Json)

  const HEX := "0123456789abcdef"

  function EscapeChar(c: char): string {
    if c == '"' then "\\\""
    else if c == '\\' then "\\\\"
    else if c == 8 as char then "\\b"
    else if c == '\t' then "\\t"
    else if c == '\n' then "\\n"
    else if c == 12 as char then "\\f"
    else if c == '\r' then "\\r"
    else if c < ' ' then "\\u00" + [HEX[c as int / 16], HEX[c as int % 16]]
    else [c]
  }

  /** The value of a lower-case hexadecimal digit. */
  predicate LowerHex(c: char, v: int) {
    ('0' <= c <= '9' && v == c as int - '0' as int) || ('a' <= c <= 'f' && v == c as int - 'a' as int + 10)
  }

  /** How a character is written: a short escape where there is one, the other control characters by their two
      lower-case digits, and everything else, `/` and bytes of UTF-8 included, as it is. */
  lemma {:induction false} EscapeExactly(c: char)
    ensures c == '"' ==> EscapeChar(c) == ['\\', '"']
    ensures c == '\\' ==> EscapeChar(c) == ['\\', '\\']
    ensures c as int in {8, 9, 10, 12, 13} ==>
              EscapeChar(c) == ['\\', if c as int == 8 then 'b' else if c as int == 9 then 't' else if c as int == 10 then 'n' else if c as int == 12 then 'f' else 'r']
    ensures c as int < 0x20 && c as int !in {8, 9, 10, 12, 13} ==>
              var e := EscapeChar(c);
              |e| == 6 && e[..4] == ['\\', 'u', '0', '0'] && LowerHex(e[4], c as int / 16) && LowerHex(e[5], c as int % 16)
    ensures c as int >= 0x20 && c != '"' && c != '\\' ==> EscapeChar(c) == [c]
  {
    if c as int < 0x20 && c as int !in {8, 9, 10, 12, 13} {
      var d := c as int % 16;
      DigitOfHex(c as int / 16);
      DigitOfHex(d);
    }
  }

  lemma {:induction false} DigitOfHex(v: nat)
    requires v < 16
    ensures LowerHex(HEX[v], v)
  {
    if v < 4 {
    } else if v < 8 {
    } else if v < 12 {
    }
  }

  function Escape(s: string): string {
    if s == "" then "" else EscapeChar(s[0]) + Escape(s[1..])
  }

  lemma {:induction false} EscapeUnescaped(m: string)
    requires forall i :: 0 <= i < |m| ==> EscapeChar(m[i]) == [m[i]]
    ensures Escape(m) == m
    decreases |m|
  {
    if m != "" { EscapeUnescaped(m[1..]); }
  }

  lemma {:induction false} EscapeConcat(a: string, b: string)
    ensures Escape(a + b) == Escape(a) + Escape(b)
    decreases |a|
  {
    if a == "" {
      assert a + b == b;
    } else {
      assert (a + b)[0] == a[0] && (a + b)[1..] == a[1..] + b;
      EscapeConcat(a[1..], b);
    }
  }

  lemma {:induction false} EscapeOne(c: char)
    ensures Escape([c]) == EscapeChar(c)
  {
    assert [c][1..] == "";
  }

  function Quoted(s: string): string { "\"" + Escape(s) + "\"" }

  function Dump(j: Json): string
    decreases j, 1
  {
    match j
    case Null => "null"
    case Bool(b) => if b then "true" else "false"
    case Num(text) => text
    case Str(s) => Quoted(s)
    case Array(items) => "[" + DumpItems(items) + "]"
    case Object(members) => "{" + DumpMembers(members) + "}"
  }

  function DumpItems(items: seq<Json>): string
    decreases items, 0
  {
    if items == [] then ""
    else if |items| == 1 then Dump(items[0])
    else Dump(items[0]) + "," + DumpItems(items[1..])
  }

  function DumpMember(m: Member): string
    decreases m, 2
  {
    Quoted(m.key) + ":" + Dump(m.value)
  }

  function DumpMembers(members: seq<Member>): string
    decreases members, 0
  {
    if members == [] then ""
    else if |members| == 1 then DumpMember(members[0])
    else DumpMember(members[0]) + "," + DumpMembers(members[1..])
  }

  /** `obj[key] = value` on an ordered object. */
  function Put(members: seq<Member>, key: string, value: Json): seq<Member> {
    if members == [] then [Member(key, value)]
    else if members[0].key == key then [Member(key, value)] + members[1..]
    else [members[0]] + Put(members[1..], key, value)
  }

  lemma {:induction false} PutNew(done: seq<Member>, key: string, value: Json)
    requires forall i :: 0 <= i < |done| ==> done[i].key != key
    ensures Put(done, key, value) == done + [Member(key, value)]
    decreases |done|
  {
    if done != [] {
      PutNew(done[1..], key, value);
      assert done == [done[0]] + done[1..];
    }
  }

  /** No object has a key twice. */
  predicate DistinctKeys(j: Json)
    decreases j
  {
    match j
    case Array(items) => forall i :: 0 <= i < |items| ==> DistinctKeys(items[i])
    case Object(members) =>
      && (forall i :: 0 <= i < |members| ==> DistinctKeys(members[i].value))
      && (forall i, k :: 0 <= i < k < |members| ==> members[i].key != members[k].key)
    case _ => true
  }

  // ----- dumped text is JSON text

  /** The string can be dumped: its bytes are valid UTF-8. */
  predicate Utf8From(s: StrState, t: string)
    decreases |t|
  {
    if t == "" then s == Plain
    else if s == Plain && EscapeChar(t[0]) != [t[0]] then Utf8From(Plain, t[1..])
    else StrStep(s, t[0]).StrMore? && Utf8From(StrStep(s, t[0]).s, t[1..])
  }

  predicate NumberFrom(n: NumState, t: string)
    decreases |t|
  {
    if t == "" then Complete(n) else NumStep(n, t[0]).NumMore? && NumberFrom(NumStep(n, t[0]).n, t[1..])
  }

  predicate Dumpable(j: Json)
    decreases j
  {
    match j
    case Num(text) => text != "" && (text[0] == '-' || IsDigit(text[0])) && NumberFrom(TokenFrom(text[0]).n, text[1..])
    case Str(s) => Utf8From(Plain, s)
    case Array(items) => forall i :: 0 <= i < |items| ==> Dumpable(items[i])
    case Object(members) => forall i :: 0 <= i < |members| ==> Utf8From(Plain, members[i].key) && Dumpable(members[i].value)
    case _ => true
  }

  lemma {:induction false} EscapeRunsOne(role: Role, open: seq<Container>, c: char)
    requires EscapeChar(c) != [c]
    ensures Run(State(In(TStr(Plain), role), open), EscapeChar(c)) == State(In(TStr(Plain), role), open)
  {
    var st := State(In(TStr(Plain), role), open);
    var e := EscapeChar(c);
    if |e| == 2 {
      Run2(st, e[0], e[1]);
      assert e == [e[0], e[1]];
    } else {
      ControlRuns(role, open, e[4], e[5]);
      assert e == ['\\', 'u', '0', '0', e[4], e[5]];
    }
  }

  lemma {:induction false} ControlRuns(role: Role, open: seq<Container>, a: char, b: char)
    requires IsHex(a) && IsHex(b)
    ensures Run(State(In(TStr(Plain), role), open), ['\\', 'u', '0', '0', a, b]) == State(In(TStr(Plain), role), open)
  {
    var st := State(In(TStr(Plain), role), open);
    assert ['\\', 'u', '0', '0', a, b] == (['\\', 'u'] + ['0', '0']) + [a, b];
    RunConcat(st, ['\\', 'u'] + ['0', '0'], [a, b]);
    RunConcat(st, ['\\', 'u'], ['0', '0']);
    Run2(st, '\\', 'u');
    Run2(Run(st, ['\\', 'u']), '0', '0');
    Run2(Run(st, ['\\', 'u'] + ['0', '0']), a, b);
  }

  lemma {:induction false} EscapeRuns(s: StrState, role: Role, open: seq<Container>, t: string)
    requires Utf8From(s, t) && (s == Plain || (s.Utf8? && 0x80 as char <= s.lo))
    ensures Run(State(In(TStr(s), role), open), Escape(t)) == State(In(TStr(Plain), role), open)
    decreases |t|
  {
    if t != "" {
      var st := State(In(TStr(s), role), open);
      RunConcat(st, EscapeChar(t[0]), Escape(t[1..]));
      if s == Plain && EscapeChar(t[0]) != [t[0]] {
        EscapeRunsOne(role, open, t[0]);
        EscapeRuns(Plain, role, open, t[1..]);
      } else {
        RunOne(st, t[0]);
        EscapeRuns(StrStep(s, t[0]).s, role, open, t[1..]);
      }
    }
  }

  /** A dumped string, read where `role` is the part a string plays, ends its token. */
  lemma {:induction false} QuotedRuns(st: State, role: Role, t: string)
    requires Utf8From(Plain, t) && Step(st, '"') == State(In(TStr(Plain), role), st.open)
    ensures Run(st, Quoted(t)) == EndToken(role, st.open)
  {
    RunConcat(st, "\"" + Escape(t), "\"");
    RunConcat(st, "\"", Escape(t));
    RunOne(st, '"');
    EscapeRuns(Plain, role, st.open, t);
    RunOne(State(In(TStr(Plain), role), st.open), '"');
  }

  lemma {:induction false} NumberRuns(n: NumState, open: seq<Container>, t: string)
    requires NumberFrom(n, t)
    ensures Settled(Run(State(In(TNum(n), AsValue), open), t)) == State(After, open)
    decreases |t|
  {
    if t != "" { NumberRuns(NumStep(n, t[0]).n, open, t[1..]); }
  }

  /** What follows a value reads the same whether the value was a number or not. */
  lemma {:induction false} SettledStep(st: State, c: char)
    requires Settled(st).mode == After && (c == ',' || c == ']' || c == '}')
    ensures Step(st, c) == Step(Settled(st), c)
  {
  }

  lemma {:induction false} LiteralRestRuns(open: seq<Container>, rest: string)
    requires rest != ""
    ensures Run(State(In(TLit(rest), AsValue), open), rest) == State(After, open)
    decreases |rest|
  {
    if |rest| > 1 { LiteralRestRuns(open, rest[1..]); }
  }

  lemma {:induction false} FirstChar(st: State, c: char)
    requires (st.mode == Value || st.mode == FirstElem) && StartsToken(c)
    ensures Step(st, c) == State(In(TokenFrom(c), AsValue), st.open)
  {
  }

  lemma {:induction false} LiteralRuns(st: State, c: char, rest: string)
    requires (st.mode == Value || st.mode == FirstElem) && StartsToken(c) && TokenFrom(c) == TLit(rest) && rest != ""
    ensures Run(st, [c] + rest) == State(After, st.open)
  {
    FirstChar(st, c);
    RunConcat(st, [c], rest);
    RunOne(st, c);
    LiteralRestRuns(st.open, rest);
  }

  /** Reading a dumped value where a value is due leaves a complete value at the same depth. */
  lemma {:induction false} DumpRuns(st: State, j: Json)
    requires (st.mode == Value || st.mode == FirstElem) && Dumpable(j)
    ensures Settled(Run(st, Dump(j))) == State(After, st.open)
    decreases j, 1
  {
    match j {
      case Null =>
        LiteralRuns(st, 'n', "ull");
        assert "null" == ['n'] + "ull";
      case Bool(b) =>
        LiteralRuns(st, 't', "rue");
        LiteralRuns(st, 'f', "alse");
        assert "true" == ['t'] + "rue" && "false" == ['f'] + "alse";
      case Num(text) =>
        FirstChar(st, text[0]);
        NumberRuns(TokenFrom(text[0]).n, st.open, text[1..]);
      case Str(s) => QuotedRuns(st, AsValue, s);
      case Array(items) =>
        ArrayRuns(st, items);
      case Object(members) =>
        ObjectRuns(st, members);
    }
  }

  lemma {:induction false} BracketedRuns(st: State, opening: char, inner: State, body: string, closing: char)
    requires Step(st, opening) == inner && Fits(inner)
    requires |inner.open| == |st.open| + 1 && inner.open[..|st.open|] == st.open
    requires closing == Bracket(inner.open[|st.open|])
    requires Ready(Run(inner, body)) && Run(inner, body).open == inner.open
    ensures Run(st, [opening] + body + [closing]) == State(After, st.open)
  {
    RunConcat(st, [opening] + body, [closing]);
    RunConcat(st, [opening], body);
    RunOne(st, opening);
    RunOne(Run(inner, body), closing);
    RunFits(inner, body);
    BracketStep(Run(inner, body), closing);
  }

  lemma {:induction false} ArrayRuns(st: State, items: seq<Json>)
    requires (st.mode == Value || st.mode == FirstElem)
    requires forall i :: 0 <= i < |items| ==> Dumpable(items[i])
    ensures Run(st, Dump(Array(items))) == State(After, st.open)
    decreases Array(items), 0
  {
    var inner := State(FirstElem, st.open + [Arr]);
    if items != [] { ItemsRun(inner, items); }
    BracketedRuns(st, '[', inner, DumpItems(items), ']');
  }

  lemma {:induction false} ObjectRuns(st: State, members: seq<Member>)
    requires (st.mode == Value || st.mode == FirstElem)
    requires forall i :: 0 <= i < |members| ==> Utf8From(Plain, members[i].key) && Dumpable(members[i].value)
    ensures Run(st, Dump(Object(members))) == State(After, st.open)
    decreases Object(members), 0
  {
    var inner := State(FirstKey, st.open + [Obj]);
    if members != [] { MembersRun(inner, members); }
    BracketedRuns(st, '{', inner, DumpMembers(members), '}');
  }

  lemma {:induction false} ItemsRun(st: State, items: seq<Json>)
    requires (st.mode == Value || st.mode == FirstElem) && TopIs(st.open, Arr) && items != []
    requires forall i :: 0 <= i < |items| ==> Dumpable(items[i])
    ensures Settled(Run(st, DumpItems(items))) == State(After, st.open)
    decreases items, 0
  {
    DumpRuns(st, items[0]);
    if |items| > 1 {
      RunConcat(st, Dump(items[0]) + ",", DumpItems(items[1..]));
      RunConcat(st, Dump(items[0]), ",");
      RunOne(Run(st, Dump(items[0])), ',');
      SettledStep(Run(st, Dump(items[0])), ',');
      ItemsRun(State(Value, st.open), items[1..]);
    }
  }

  lemma {:induction false} MemberRuns(st: State, m: Member)
    requires (st.mode == FirstKey || st.mode == NextKey) && TopIs(st.open, Obj) && Utf8From(Plain, m.key) && Dumpable(m.value)
    ensures Settled(Run(st, DumpMember(m))) == State(After, st.open)
    decreases m, 2
  {
    RunConcat(st, Quoted(m.key) + ":", Dump(m.value));
    RunConcat(st, Quoted(m.key), ":");
    QuotedRuns(st, AsKey, m.key);
    RunOne(State(Colon, st.open), ':');
    DumpRuns(State(Value, st.open), m.value);
  }

  lemma {:induction false} MembersRun(st: State, members: seq<Member>)
    requires (st.mode == FirstKey || st.mode == NextKey) && TopIs(st.open, Obj) && members != []
    requires forall i :: 0 <= i < |members| ==> Utf8From(Plain, members[i].key) && Dumpable(members[i].value)
    ensures Settled(Run(st, DumpMembers(members))) == State(After, st.open)
    decreases members, 0
  {
    MemberRuns(st, members[0]);
    if |members| > 1 {
      RunConcat(st, DumpMember(members[0]) + ",", DumpMembers(members[1..]));
      RunConcat(st, DumpMember(members[0]), ",");
      RunOne(Run(st, DumpMember(members[0])), ',');
      SettledStep(Run(st, DumpMember(members[0])), ',');
      MembersRun(State(NextKey, st.open), members[1..]);
    }
  }

  /** Every value that can be dumped dumps to a text that parses. */
  lemma {:induction false} DumpParses(j: Json)
    requires Dumpable(j)
    ensures CanParse(Dump(j))
  {
    DumpRuns(START, j);
  }
}
