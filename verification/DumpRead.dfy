/** Reading back what `json::dump()` writes, and what reading any part of it has in hand. */
module DumpRead {
  import opened Collections
  import opened JsonText
  import opened JsonValue
  import opened JsonRead
  import opened HealingTheorems

  // ----- a reader's state in the format of the dump

  function EachItem(items: seq<Json>): string {
    if items == [] then "" else DumpItems(items) + ","
  }

  function EachMember(members: seq<Member>): string {
    if members == [] then "" else DumpMembers(members) + ","
  }

  /** A container up to where its next value, or its next key, goes. */
  function UpToValue(f: Frame): string {
    match f
    case ArrayFrame(items) => "[" + EachItem(items)
    case ObjectFrame(members, key) => UpToKey(f) + (Quoted(key) + ":")
  }

  function UpToKey(f: Frame): string {
    match f
    case ArrayFrame(items) => "[" + EachItem(items)
    case ObjectFrame(members, key) => "{" + EachMember(members)
  }

  /** A container up to the end of its last value. */
  function UpToEnd(f: Frame): string {
    match f
    case ArrayFrame(items) => "[" + DumpItems(items)
    case ObjectFrame(members, key) => "{" + DumpMembers(members)
  }

  function AllUpToValue(frames: seq<Frame>): string
    decreases |frames|
  {
    if frames == [] then "" else AllUpToValue(Outer(frames)) + UpToValue(Top(frames))
  }

  function AllUpToKey(frames: seq<Frame>): string {
    if frames == [] then "" else AllUpToValue(Outer(frames)) + UpToKey(Top(frames))
  }

  function AllUpToEnd(frames: seq<Frame>, root: Json): string {
    if frames == [] then Dump(root) else AllUpToValue(Outer(frames)) + UpToEnd(Top(frames))
  }

  function TokenText(tok: Token, buf: string): string {
    match tok
    case TStr(s) => "\"" + Escape(buf) + if s == Esc then "\\" else ""
    case _ => buf
  }

  /** What has been read, written as the dump writes it. */
  function Rendered(r: Reader): string {
    match r.st.mode
    case Value => AllUpToValue(r.frames)
    case FirstElem => AllUpToValue(r.frames)
    case FirstKey => AllUpToKey(r.frames)
    case NextKey => AllUpToKey(r.frames)
    case Colon => AllUpToKey(r.frames) + (if r.frames != [] && Top(r.frames).ObjectFrame? then Quoted(Top(r.frames).key) else "")
    case After => AllUpToEnd(r.frames, r.root)
    case In(tok, role) => (if role == AsKey then AllUpToKey(r.frames) else AllUpToValue(r.frames)) + TokenText(tok, r.buf)
    case Dead => ""
  }

  /** The key the next value goes to is not in the object yet. */
  predicate NewKeyIn(f: Frame) {
    f.ObjectFrame? ==> forall i :: 0 <= i < |f.members| ==> f.members[i].key != f.key
  }

  /** A value is due, or being read, in the innermost container. */
  predicate ValueNext(st: State) {
    st.mode == Value || st.mode == FirstElem || st.mode == Colon || (st.mode.In? && st.mode.role == AsValue)
  }

  /** No key repeats where values are pending. */
  predicate NoRepeats(r: Reader) {
    forall i :: 0 <= i < |r.frames| && (i < |r.frames| - 1 || ValueNext(r.st)) ==> NewKeyIn(r.frames[i])
  }

  /** The reader holds exactly the text `s`, except inside an escape. */
  predicate Holds(r: Reader, s: string) {
    MidEscape(r.st) || (Rendered(r) == s && NoRepeats(r))
  }

  /** The reader holds the text at every step through `t`, after `s`. */
  predicate Tracks(r: Reader, s: string, t: string)
    decreases |t|
  {
    Holds(r, s) && (t != "" ==> Tracks(ReadStep(r, t[0]), s + [t[0]], t[1..]))
  }

  // ----- tracking in pieces

  lemma {:induction false} TracksConcat(r: Reader, s: string, a: string, b: string)
    requires Tracks(r, s, a) && Tracks(ReadRun(r, a), s + a, b)
    ensures Tracks(r, s, a + b)
    decreases |a|
  {
    hide ReadStep, Holds;
    if a == "" {
      assert a + b == b && s + a == s;
    } else {
      assert (a + b)[0] == a[0] && (a + b)[1..] == a[1..] + b;
      assert s + a == s + [a[0]] + a[1..];
      TracksConcat(ReadStep(r, a[0]), s + [a[0]], a[1..], b);
    }
  }

  lemma {:induction false} TracksPrefix(r: Reader, s: string, t: string, k: nat)
    requires Tracks(r, s, t) && k <= |t|
    ensures Holds(ReadRun(r, t[..k]), s + t[..k])
    decreases |t|
  {
    hide ReadStep, Holds;
    if k == 0 {
      assert s + t[..0] == s;
    } else {
      TracksPrefix(ReadStep(r, t[0]), s + [t[0]], t[1..], k - 1);
      assert t[..k][0] == t[0] && t[..k][1..] == t[1..][..k - 1];
      assert s + [t[0]] + t[1..][..k - 1] == s + t[..k];
    }
  }

  lemma {:induction false} TracksEnd(r: Reader, s: string, t: string)
    requires Tracks(r, s, t)
    ensures Holds(ReadRun(r, t), s + t)
  {
    TracksPrefix(r, s, t, |t|);
    assert t[..|t|] == t;
  }

  lemma {:induction false} TracksOne(r: Reader, s: string, c: char)
    requires Holds(r, s) && Holds(ReadStep(r, c), s + [c])
    ensures Tracks(r, s, [c])
  {
    assert [c][1..] == "";
  }

  /** Two tracked texts one after the other. */
  lemma {:induction false} TracksOn(r: Reader, p: Reader, q: Reader, s: string, more: string, a: string, b: string)
    returns (t: string)
    requires p == ReadRun(r, a) && q == ReadRun(p, b) && more == s + a
    requires Tracks(r, s, a) && Tracks(p, more, b)
    ensures t == a + b && Tracks(r, s, t) && q == ReadRun(r, t)
  {
    t := a + b;
    TracksConcat(r, s, a, b);
    ReadConcat(r, a, b);
  }

  // ----- appending to a container

  lemma {:induction false} DumpItemsMore(items: seq<Json>, v: Json)
    ensures DumpItems(items + [v]) == EachItem(items) + Dump(v)
    decreases |items|
  {
    if items == [] {
      assert items + [v] == [v];
    } else {
      var head, rest := Dump(items[0]), items[1..];
      DumpItemsMore(rest, v);
      assert (items + [v])[1..] == rest + [v];
      assert rest + [v] != [];
      if rest == [] {
        assert items == [items[0]];
      } else {
        Associate(head + ",", DumpItems(rest) + ",", Dump(v));
        Associate(head + ",", DumpItems(rest), ",");
      }
    }
  }

  lemma {:induction false} DumpMembersMore(members: seq<Member>, x: Member)
    ensures DumpMembers(members + [x]) == EachMember(members) + DumpMember(x)
    decreases |members|
  {
    if members == [] {
      assert members + [x] == [x];
    } else {
      var head, rest := DumpMember(members[0]), members[1..];
      DumpMembersMore(rest, x);
      assert (members + [x])[1..] == rest + [x];
      assert rest + [x] != [];
      if rest == [] {
        assert members == [members[0]];
      } else {
        Associate(head + ",", DumpMembers(rest) + ",", DumpMember(x));
        Associate(head + ",", DumpMembers(rest), ",");
      }
    }
  }

  /** A value put under a new key, or at the end of an array, is dumped at the end. */
  lemma {:induction false} WithDumped(f: Frame, v: Json)
    requires NewKeyIn(f)
    ensures UpToEnd(With(f, v)) == UpToValue(f) + Dump(v)
  {
    match f {
      case ArrayFrame(items) =>
        DumpItemsMore(items, v);
        Associate("[", EachItem(items), Dump(v));
      case ObjectFrame(members, key) =>
        PutNew(members, key, v);
        DumpMembersMore(members, Member(key, v));
        Associate("{", EachMember(members), DumpMember(Member(key, v)));
        Associate("{" + EachMember(members), Quoted(key) + ":", Dump(v));
    }
  }

  // ----- strings

  function Base(r: Reader, role: Role): string {
    if role == AsKey then AllUpToKey(r.frames) else AllUpToValue(r.frames)
  }

  /** What is shown of a string that is being read. */
  function Shown(r: Reader, role: Role): string { Base(r, role) + ("\"" + Escape(r.buf)) }

  lemma {:induction false} ShownMore(r: Reader, role: Role, c: char)
    ensures Shown(r.(buf := r.buf + [c]), role) == Shown(r, role) + EscapeChar(c)
  {
    EscapeConcat(r.buf, [c]);
    EscapeOne(c);
    Associate("\"", Escape(r.buf), EscapeChar(c));
    Associate(Base(r, role), "\"" + Escape(r.buf), EscapeChar(c));
  }

  /** The reader is in a string of a key or value, at a point from which characters follow. */
  predicate InText(r: Reader, x: StrState, role: Role) {
    r.st.mode == In(TStr(x), role) && !role.Unexpected? && NoRepeats(r) && (x == Plain || (x.Utf8? && 0x80 as char <= x.lo))
  }

  lemma {:induction false} ShownHolds(r: Reader, x: StrState, role: Role)
    requires InText(r, x, role)
    ensures Holds(r, Shown(r, role))
  {
    assert Escape(r.buf) + "" == Escape(r.buf);
  }

  lemma {:induction false} BackslashReads(r: Reader, role: Role) returns (q: Reader)
    requires InText(r, Plain, role)
    ensures q == ReadStep(r, '\\') == r.(st := State(In(TStr(Esc), role), r.st.open))
    ensures Holds(q, Shown(r, role) + "\\")
  {
    q := ReadStep(r, '\\');
    Associate(Base(r, role), "\"" + Escape(r.buf), "\\");
  }

  lemma {:induction false} TracksCons(r: Reader, s: string, c: char, t: string)
    requires Holds(r, s) && Tracks(ReadStep(r, c), s + [c], t)
    ensures Tracks(r, s, [c] + t) && ReadRun(r, [c] + t) == ReadRun(ReadStep(r, c), t)
  {
    assert ([c] + t)[1..] == t;
  }

  /** One more character in front of a tracked text. */
  lemma {:induction false} TracksBefore(r: Reader, p: Reader, s: string, c: char, more: string, t: string) returns (all: string)
    requires Holds(r, s) && p == ReadStep(r, c) && more == s + [c] && Tracks(p, more, t)
    ensures all == [c] + t && Tracks(r, s, all) && ReadRun(r, all) == ReadRun(p, t)
  {
    all := [c] + t;
    TracksCons(r, s, c, t);
  }

  lemma {:induction false} ShortEscape(r: Reader, role: Role, c: char) returns (b: char)
    requires r.st.mode == In(TStr(Esc), role) && |EscapeChar(c)| == 2
    ensures EscapeChar(c) == ['\\', b]
    ensures ReadStep(r, b) == r.(st := State(In(TStr(Plain), role), r.st.open), buf := r.buf + [c])
  {
    b := EscapeChar(c)[1];
  }

  lemma {:induction false} ShownAround(r: Reader, role: Role, c: char) returns (s: string, q: Reader)
    requires InText(r, Plain, role)
    ensures q == r.(buf := r.buf + [c]) && s == Shown(r, role) && Holds(r, s)
    ensures forall code :: Holds(q.(code := code), s + EscapeChar(c))
  {
    q, s := r.(buf := r.buf + [c]), Shown(r, role);
    ShownMore(r, role, c);
    ShownHolds(r, Plain, role);
    forall code ensures Holds(q.(code := code), s + EscapeChar(c)) {
      ShownHolds(q.(code := code), Plain, role);
    }
  }

  lemma {:induction false} ShortEscapeTracks(r: Reader, r0: Reader, q: Reader, s: string, b: char) returns (t: string)
    requires r0 == ReadStep(r, '\\') && q == ReadStep(r0, b)
    requires Holds(r, s) && Holds(r0, s + ['\\']) && Holds(q, s + ['\\', b])
    ensures t == ['\\', b] && Tracks(r, s, t) && ReadRun(r, t) == q
  {
    var s1 := s + ['\\'];
    assert s1 + [b] == s + ['\\', b];
    t := [b];
    TracksOne(r0, s1, b);
    ReadOne(r0, b);
    t := TracksBefore(r, r0, s, '\\', s1, t);
  }

  lemma {:induction false} ShortEscapeReads(r: Reader, role: Role, c: char) returns (q: Reader)
    requires InText(r, Plain, role) && |EscapeChar(c)| == 2
    ensures q == ReadRun(r, EscapeChar(c)) == r.(buf := r.buf + [c])
    ensures Tracks(r, Shown(r, role), EscapeChar(c))
  {
    var s: string;
    s, q := ShownAround(r, role, c);
    var r0 := BackslashReads(r, role);
    var b := ShortEscape(r0, role, c);
    assert Holds(q.(code := q.code), s + EscapeChar(c));
    var t := ShortEscapeTracks(r, r0, q, s, b);
  }

  lemma {:induction false} LongEscape(c: char) returns (a: char, b: char)
    requires |EscapeChar(c)| == 6
    ensures EscapeChar(c) == ['\\', 'u', '0', '0', a, b] && c < ' ' && IsHex(a) && IsHex(b)
    ensures HexValue(a) == c as int / 16 && HexValue(b) == c as int % 16
  {
    a, b := HEX[c as int / 16], HEX[c as int % 16];
  }

  /** The states inside `\u00` and two digits, and the character the last one leaves in the buffer. */
  lemma {:induction false} ControlSteps(r: Reader, role: Role, open: seq<Container>, c: char, a: char, b: char)
    returns (r1: Reader, r2: Reader, r3: Reader, r4: Reader)
    requires r.st == State(In(TStr(Esc), role), open) && c < ' ' && IsHex(a) && IsHex(b)
    requires HexValue(a) == c as int / 16 && HexValue(b) == c as int % 16
    ensures r1 == ReadStep(r, 'u') && r2 == ReadStep(r1, '0') && r3 == ReadStep(r2, '0') && r4 == ReadStep(r3, a)
    ensures MidEscape(r1.st) && MidEscape(r2.st) && MidEscape(r3.st) && MidEscape(r4.st)
    ensures ReadStep(r4, b) == r.(st := State(In(TStr(Plain), role), open), buf := r.buf + [c], code := ReadStep(r4, b).code)
  {
    r1 := r.(code := 0, st := State(In(TStr(Hex(0, Fresh, false)), role), open));
    r2 := r1.(st := State(In(TStr(Hex(1, Ordinary, false)), role), open));
    r3 := r2.(st := State(In(TStr(Hex(2, Ordinary, false)), role), open));
    r4 := r3.(code := c as int / 16, st := State(In(TStr(Hex(3, Ordinary, false)), role), open));
    assert c as int / 16 * 16 + c as int % 16 == c as int;
    assert Utf8Of(c as int) == [c];
  }

  lemma {:induction false} LastOfEscape(r4: Reader, q: Reader, b: char, s: string) returns (t: string)
    requires MidEscape(r4.st) && q == ReadStep(r4, b) && Holds(q, s + [b])
    ensures t == [b] && Tracks(r4, s, t) && ReadRun(r4, t) == q
  {
    t := [b];
    TracksOne(r4, s, b);
    ReadOne(r4, b);
  }

  lemma {:induction false} TextOf6(s: string, a: char, b: char) returns (s1: string, s2: string, s3: string, s4: string, s5: string)
    ensures s1 == s + ['\\'] && s2 == s1 + ['u'] && s3 == s2 + ['0'] && s4 == s3 + ['0'] && s5 == s4 + [a]
    ensures s5 + [b] == s + ['\\', 'u', '0', '0', a, b]
  {
    s1 := s + ['\\'];
    s2 := s1 + ['u'];
    s3 := s2 + ['0'];
    s4 := s3 + ['0'];
    s5 := s4 + [a];
  }

  lemma {:induction false} LongEscapeReads(r: Reader, role: Role, c: char) returns (q: Reader)
    requires InText(r, Plain, role) && |EscapeChar(c)| == 6
    ensures q == ReadRun(r, EscapeChar(c)) == r.(buf := r.buf + [c], code := q.code)
    ensures Tracks(r, Shown(r, role), EscapeChar(c))
  {
    var a, b := LongEscape(c);
    var s, plain := ShownAround(r, role, c);
    var r0 := BackslashReads(r, role);
    var r1, r2, r3, r4 := ControlSteps(r0, role, r.st.open, c, a, b);
    q := plain.(code := ReadStep(r4, b).code);
    var t := LongEscapeTracks(r, r0, r1, r2, r3, r4, q, s, a, b);
  }

  lemma {:induction false} LongEscapeTracks(r: Reader, r0: Reader, r1: Reader, r2: Reader, r3: Reader, r4: Reader, q: Reader,
                                            s: string, a: char, b: char)
    returns (t: string)
    requires r0 == ReadStep(r, '\\') && r1 == ReadStep(r0, 'u') && r2 == ReadStep(r1, '0') && r3 == ReadStep(r2, '0')
    requires r4 == ReadStep(r3, a) && q == ReadStep(r4, b)
    requires MidEscape(r1.st) && MidEscape(r2.st) && MidEscape(r3.st) && MidEscape(r4.st)
    requires Holds(r, s) && Holds(r0, s + ['\\']) && Holds(q, s + ['\\', 'u', '0', '0', a, b])
    ensures t == ['\\', 'u', '0', '0', a, b] && Tracks(r, s, t) && ReadRun(r, t) == q
  {
    var s1, s2, s3, s4, s5 := TextOf6(s, a, b);
    t := LastOfEscape(r4, q, b, s5);
    t := TracksBefore(r3, r4, s4, a, s5, t);
    t := TracksBefore(r2, r3, s3, '0', s4, t);
    t := TracksBefore(r1, r2, s2, '0', s3, t);
    t := TracksBefore(r0, r1, s1, 'u', s2, t);
    t := TracksBefore(r, r0, s, '\\', s1, t);
  }

  lemma {:induction false} PlainStep1(r: Reader, x: StrState, role: Role, c: char) returns (q: Reader)
    requires r.st.mode == In(TStr(x), role) && (x == Plain || (x.Utf8? && 0x80 as char <= x.lo))
    requires StrStep(x, c).StrMore? && EscapeChar(c) == [c]
    ensures q == ReadStep(r, c) == r.(st := State(In(TStr(StrStep(x, c).s), role), r.st.open), buf := r.buf + [c])
    ensures StrStep(x, c).s == Plain || (StrStep(x, c).s.Utf8? && 0x80 as char <= StrStep(x, c).s.lo)
  {
    q := r.(st := State(In(TStr(StrStep(x, c).s), role), r.st.open), buf := r.buf + [c]);
  }

  lemma {:induction false} PlainReads(r: Reader, x: StrState, role: Role, c: char) returns (q: Reader)
    requires InText(r, x, role) && StrStep(x, c).StrMore? && EscapeChar(c) == [c]
    ensures q == ReadStep(r, c) == r.(st := State(In(TStr(StrStep(x, c).s), role), r.st.open), buf := r.buf + [c])
    ensures InText(q, StrStep(x, c).s, role) && Shown(q, role) == Shown(r, role) + [c]
  {
    q := PlainStep1(r, x, role, c);
    ShownMore(r, role, c);
  }

  lemma {:induction false} PlainTracks(r: Reader, x: StrState, role: Role, c: char) returns (p: Reader, t: string)
    requires InText(r, x, role) && StrStep(x, c).StrMore? && EscapeChar(c) == [c]
    ensures t == [c] && p == ReadRun(r, t) && Tracks(r, Shown(r, role), t)
    ensures p == r.(st := State(In(TStr(StrStep(x, c).s), role), r.st.open), buf := r.buf + [c])
    ensures InText(p, StrStep(x, c).s, role) && Shown(p, role) == Shown(r, role) + [c]
  {
    t := [c];
    p := PlainReads(r, x, role, c);
    ShownHolds(r, x, role);
    ShownHolds(p, StrStep(x, c).s, role);
    TracksOne(r, Shown(r, role), c);
    ReadOne(r, c);
  }

  lemma {:induction false} ShownAfter(r: Reader, p: Reader, role: Role, c: char)
    requires InText(r, Plain, role) && p == r.(buf := r.buf + [c], code := p.code)
    ensures Shown(p, role) == Shown(r, role) + EscapeChar(c) && InText(p, Plain, role)
  {
    ShownMore(r, role, c);
  }

  /** One character of a string, as the dump writes it. */
  lemma {:induction false} OneReads(r: Reader, x: StrState, role: Role, c: char) returns (p: Reader)
    requires InText(r, x, role) && ((x == Plain && EscapeChar(c) != [c]) || StrStep(x, c).StrMore?)
    ensures p == ReadRun(r, EscapeChar(c)) && Tracks(r, Shown(r, role), EscapeChar(c))
    ensures var y := if x == Plain && EscapeChar(c) != [c] then Plain else StrStep(x, c).s;
            && InText(p, y, role) && Shown(p, role) == Shown(r, role) + EscapeChar(c)
            && p == r.(st := State(In(TStr(y), role), r.st.open), buf := r.buf + [c], code := p.code)
  {
    hide Tracks, ReadRun, Shown, Holds, NoRepeats;
    if EscapeChar(c) == [c] {
      var t;
      p, t := PlainTracks(r, x, role, c);
    } else {
      EscapedPlain(x, c);
      if |EscapeChar(c)| == 2 { p := ShortEscapeReads(r, role, c); } else { p := LongEscapeReads(r, role, c); }
      ShownAfter(r, p, role, c);
    }
  }

  /** Only between characters does one that is escaped follow. */
  lemma {:induction false} EscapedPlain(x: StrState, c: char)
    requires EscapeChar(c) != [c] && (x == Plain || (x.Utf8? && 0x80 as char <= x.lo))
    ensures |EscapeChar(c)| == 2 || |EscapeChar(c)| == 6
    ensures x != Plain ==> !StrStep(x, c).StrMore?
  {
  }

  lemma {:induction false} Utf8Rest(x: StrState, t: string) returns (c: char, rest: string, y: StrState)
    requires Utf8From(x, t) && t != ""
    ensures c == t[0] && rest == t[1..] && t == [c] + rest && Escape(t) == EscapeChar(c) + Escape(rest)
    ensures (x == Plain && EscapeChar(c) != [c]) || StrStep(x, c).StrMore?
    ensures y == (if x == Plain && EscapeChar(c) != [c] then Plain else StrStep(x, c).s) && Utf8From(y, rest)
  {
    c, rest := t[0], t[1..];
    y := if x == Plain && EscapeChar(c) != [c] then Plain else StrStep(x, c).s;
  }

  /** From `r`, where `s` is shown, reading `e` leaves the string `t` added to the buffer. */
  predicate TextRead(r: Reader, role: Role, t: string, q: Reader, e: string, s: string) {
    && e == Escape(t) && s == Shown(r, role) && q == ReadRun(r, e) && Tracks(r, s, e)
    && q == r.(st := State(In(TStr(Plain), role), r.st.open), buf := r.buf + t, code := q.code)
  }

  lemma {:induction false} NoText(r: Reader, role: Role) returns (s: string)
    requires InText(r, Plain, role)
    ensures TextRead(r, role, "", r, "", s)
  {
    s := Shown(r, role);
    ShownHolds(r, Plain, role);
    assert r.buf + "" == r.buf;
  }

  lemma {:induction false} TextJoins(r: Reader, role: Role, c: char, y: StrState, p: Reader, rest: string, q: Reader, tail: string, more: string)
    returns (e: string, s: string)
    requires p == ReadRun(r, EscapeChar(c)) && Tracks(r, Shown(r, role), EscapeChar(c))
    requires Shown(p, role) == Shown(r, role) + EscapeChar(c)
    requires p == r.(st := State(In(TStr(y), role), r.st.open), buf := r.buf + [c], code := p.code)
    requires TextRead(p, role, rest, q, tail, more)
    ensures TextRead(r, role, [c] + rest, q, e, s)
  {
    hide Tracks, ReadRun, Shown;
    s := Shown(r, role);
    e := TracksOn(r, p, q, s, more, EscapeChar(c), tail);
    assert r.buf + ([c] + rest) == r.buf + [c] + rest;
    assert ([c] + rest)[1..] == rest;
  }

  /** Reading an escaped string leaves the string in the buffer. */
  lemma {:induction false} TextReads(r: Reader, x: StrState, role: Role, t: string) returns (q: Reader, e: string, s: string)
    requires InText(r, x, role) && Utf8From(x, t)
    ensures TextRead(r, role, t, q, e, s)
    decreases |t|
  {
    if t == "" {
      q, e := r, "";
      s := NoText(r, role);
    } else {
      var c, rest, y := Utf8Rest(x, t);
      var p := OneReads(r, x, role, c);
      q, e, s := TextReads(p, y, role, rest);
      e, s := TextJoins(r, role, c, y, p, rest, q, e, s);
    }
  }

  // ----- values

  /** A value is due, under a key its object does not have yet. */
  predicate Due(r: Reader) {
    AtValue(r.st) && Fits(r.st) && Mirrors(r.frames, r.st.open) && NoRepeats(r)
  }

  /** `q` is `r` after the value `j`, which may be a number that has not ended yet. */
  predicate GotValue(r: Reader, j: Json, q: Reader) {
    var e := SettledReader(q);
    && e.st == State(After, r.st.open) && e.frames == Place(r, j).frames && (r.frames == [] ==> e.root == j)
  }

  /** From `r`, where `s` is held, reading the dump `d` of `j` gives the value. */
  predicate ValueRead(r: Reader, j: Json, q: Reader, d: string, s: string) {
    d == Dump(j) && s == AllUpToValue(r.frames) && q == ReadRun(r, d) && Tracks(r, s, d) && GotValue(r, j, q)
  }

  /** One more character behind a tracked text. */
  lemma {:induction false} TracksBehind(r: Reader, s: string, a: string, p: Reader, c: char, q: Reader) returns (t: string)
    requires p == ReadRun(r, a) && Tracks(r, s, a) && q == ReadStep(p, c) && Holds(q, s + a + [c])
    ensures t == a + [c] && Tracks(r, s, t) && q == ReadRun(r, t)
  {
    hide ReadStep, Holds;
    TracksEnd(r, s, a);
    TracksOne(p, s + a, c);
    ReadOne(p, c);
    t := TracksOn(r, p, q, s, s + a, a, [c]);
  }

  lemma {:induction false} AllUpToEndPlaced(r: Reader, v: Json)
    requires r.frames != [] ==> NewKeyIn(Top(r.frames))
    ensures AllUpToEnd(Place(r, v).frames, v) == AllUpToValue(r.frames) + Dump(v)
  {
    if r.frames != [] {
      WithDumped(Top(r.frames), v);
      Associate(AllUpToValue(Outer(r.frames)), UpToValue(Top(r.frames)), Dump(v));
    }
  }

  lemma {:induction false} NoRepeatsPlaced(r: Reader, v: Json, q: Reader)
    requires NoRepeats(r) && ValueNext(r.st) && q.st.mode == After && q.frames == Place(r, v).frames
    ensures NoRepeats(q) && (r.frames != [] ==> NewKeyIn(Top(r.frames)))
  {
    if r.frames != [] {
      assert forall i :: 0 <= i < |r.frames| - 1 ==> q.frames[i] == r.frames[i];
    }
  }

  /** After a value was placed the reader holds what was before it and its dump. */
  lemma {:induction false} PlacedHolds(r: Reader, v: Json, q: Reader)
    requires NoRepeats(r) && ValueNext(r.st)
    requires q.st.mode == After && q.frames == Place(r, v).frames && (r.frames == [] ==> q.root == v)
    ensures Holds(q, AllUpToValue(r.frames) + Dump(v)) && Rendered(q) == AllUpToValue(r.frames) + Dump(v)
  {
    hide NoRepeats, AllUpToValue, UpToValue, UpToEnd, NewKeyIn;
    NoRepeatsPlaced(r, v, q);
    AllUpToEndPlaced(r, v);
  }

  predicate NumberRead(r: Reader, t: string, q: Reader, s: string) {
    && q.st.mode.In? && q.st.mode.tok.TNum? && Complete(q.st.mode.tok.n)
    && q == ReadRun(r, t) == r.(st := State(In(q.st.mode.tok, AsValue), r.st.open), buf := r.buf + t)
    && s == AllUpToValue(r.frames) + r.buf && Tracks(r, s, t)
  }

  lemma {:induction false} NumberGoesOn(r: Reader, n: NumState, c: char) returns (p: Reader, s: string, more: string)
    requires r.st.mode == In(TNum(n), AsValue) && NumStep(n, c).NumMore? && NoRepeats(r)
    ensures p == ReadStep(r, c) == r.(st := State(In(TNum(NumStep(n, c).n), AsValue), r.st.open), buf := r.buf + [c])
    ensures s == AllUpToValue(r.frames) + r.buf && more == s + [c] == AllUpToValue(p.frames) + p.buf
    ensures Holds(r, s) && NoRepeats(p)
  {
    p, s := ReadStep(r, c), AllUpToValue(r.frames) + r.buf;
    more := s + [c];
    Associate(AllUpToValue(r.frames), r.buf, [c]);
  }

  lemma {:induction false} NumberOver(r: Reader, n: NumState) returns (s: string)
    requires r.st.mode == In(TNum(n), AsValue) && Complete(n) && NoRepeats(r)
    ensures NumberRead(r, "", r, s)
  {
    s := AllUpToValue(r.frames) + r.buf;
    assert r.buf + "" == r.buf;
  }

  lemma {:induction false} NumberJoins(r: Reader, c: char, p: Reader, s: string, more: string, rest: string, q: Reader)
    requires p == ReadStep(r, c) && p.frames == r.frames && p.buf == r.buf + [c] && p.st.open == r.st.open
    requires p == r.(st := p.st, buf := p.buf)
    requires s == AllUpToValue(r.frames) + r.buf && more == s + [c] && Holds(r, s)
    requires NumberRead(p, rest, q, more)
    ensures NumberRead(r, [c] + rest, q, s)
  {
    hide Tracks, ReadRun, ReadStep, Holds, AllUpToValue;
    assert r.buf + ([c] + rest) == p.buf + rest;
    var all := TracksBefore(r, p, s, c, more, rest);
  }

  lemma {:induction false} NumberTail(r: Reader, n: NumState, t: string) returns (q: Reader, s: string)
    requires r.st.mode == In(TNum(n), AsValue) && NumberFrom(n, t) && NoRepeats(r)
    ensures NumberRead(r, t, q, s)
    decreases |t|
  {
    hide NumberRead, Holds, ReadStep, NoRepeats, AllUpToValue;
    if t == "" {
      q := r;
      s := NumberOver(r, n);
    } else {
      var p, shown, more := NumberGoesOn(r, n, t[0]);
      q, s := NumberTail(p, NumStep(n, t[0]).n, t[1..]);
      s := NumberShown(p, t[1..], q, s, more);
      NumberJoins(r, t[0], p, shown, more, t[1..], q);
      s := shown;
      assert t == [t[0]] + t[1..];
    }
  }

  lemma {:induction false} NumberShown(r: Reader, t: string, q: Reader, s: string, more: string) returns (same: string)
    requires NumberRead(r, t, q, s) && more == AllUpToValue(r.frames) + r.buf
    ensures same == s == more
  {
    hide Tracks, ReadRun, AllUpToValue;
    same := s;
  }

  lemma {:induction false} LiteralSteps(r: Reader, rest: string, v: Json) returns (p: Reader)
    requires r.st.mode == In(TLit(rest), AsValue) && rest != "" && r.buf != "" && TokenValue(TLit(rest), r.buf) == v
    ensures p == ReadStep(r, rest[0])
    ensures |rest| > 1 ==> p == r.(st := State(In(TLit(rest[1..]), AsValue), r.st.open), buf := r.buf + [rest[0]])
    ensures |rest| == 1 ==> GotValue(r, v, p) && p.st.mode == After && p.frames == Place(r, v).frames && (r.frames == [] ==> p.root == v)
  {
    p := ReadStep(r, rest[0]);
  }

  lemma {:induction false} TokenHolds(r: Reader, tok: Token)
    requires r.st.mode == In(tok, AsValue) && !tok.TStr? && NoRepeats(r)
    ensures Holds(r, AllUpToValue(r.frames) + r.buf)
  {
  }

  /** From `r`, in a literal, reading `rest` gives the value. */
  predicate LiteralRead(r: Reader, rest: string, v: Json, q: Reader, s: string) {
    q == ReadRun(r, rest) && GotValue(r, v, q) && s == AllUpToValue(r.frames) + r.buf && Tracks(r, s, rest)
  }

  lemma {:induction false} LiteralEnds(r: Reader, c: char, v: Json) returns (q: Reader, s: string)
    requires r.st.mode == In(TLit([c]), AsValue) && NoRepeats(r)
    requires r.buf != "" && r.buf + [c] == Dump(v) && TokenValue(TLit([c]), r.buf) == v
    ensures LiteralRead(r, [c], v, q, s)
  {
    hide Tracks, ReadRun, ReadStep, Holds, GotValue, NoRepeats, AllUpToValue, TokenValue;
    s := AllUpToValue(r.frames) + r.buf;
    TokenHolds(r, TLit([c]));
    q := LiteralSteps(r, [c], v);
    PlacedHolds(r, v, q);
    Associate(AllUpToValue(r.frames), r.buf, [c]);
    ReadOne(r, c);
    TracksOne(r, s, c);
  }

  lemma {:induction false} LiteralJoins(r: Reader, c: char, p: Reader, rest: string, v: Json, q: Reader, more: string) returns (s: string)
    requires p == ReadStep(r, c) && p.frames == r.frames && p.buf == r.buf + [c] && p.st.open == r.st.open
    requires Holds(r, AllUpToValue(r.frames) + r.buf) && LiteralRead(p, rest, v, q, more)
    ensures LiteralRead(r, [c] + rest, v, q, s)
  {
    hide Tracks, ReadRun, ReadStep, Holds, GotValue, AllUpToValue;
    s := AllUpToValue(r.frames) + r.buf;
    Associate(AllUpToValue(r.frames), r.buf, [c]);
    SameValue(r, p, v, q);
    var all := TracksBefore(r, p, s, c, more, rest);
  }

  lemma {:induction false} LiteralTail(r: Reader, rest: string, v: Json) returns (q: Reader, s: string)
    requires r.st.mode == In(TLit(rest), AsValue) && rest != "" && NoRepeats(r)
    requires r.buf != "" && r.buf + rest == Dump(v) && TokenValue(TLit(rest), r.buf) == v
    ensures LiteralRead(r, rest, v, q, s)
    decreases |rest|
  {
    hide LiteralRead, ReadStep, Holds, GotValue, AllUpToValue;
    var c, tail := rest[0], rest[1..];
    if |rest| == 1 {
      assert rest == [c];
      q, s := LiteralEnds(r, c, v);
    } else {
      assert rest == [c] + tail;
      var p := LiteralSteps(r, rest, v);
      assert r.buf + rest == p.buf + tail;
      TokenHolds(r, TLit(rest));
      q, s := LiteralTail(p, tail, v);
      s := LiteralJoins(r, c, p, tail, v, q, s);
    }
  }

  lemma {:induction false} SameValue(r: Reader, p: Reader, v: Json, q: Reader)
    requires p.frames == r.frames && p.st.open == r.st.open
    ensures GotValue(p, v, q) <==> GotValue(r, v, q)
  {
  }

  lemma {:induction false} TokenStarts(r: Reader, c: char) returns (p: Reader)
    requires Due(r) && StartsToken(c)
    ensures p == ReadStep(r, c) == r.(st := State(In(TokenFrom(c), AsValue), r.st.open), buf := if c == '"' then "" else [c])
    ensures NoRepeats(p) && Holds(r, AllUpToValue(r.frames))
  {
    p := ReadStep(r, c);
  }

  lemma {:induction false} LiteralReads(r: Reader, c: char, rest: string, v: Json) returns (q: Reader, d: string, s: string)
    requires Due(r) && StartsToken(c) && TokenFrom(c) == TLit(rest) && rest != ""
    requires [c] + rest == Dump(v) && TokenValue(TLit(rest), [c]) == v
    ensures ValueRead(r, v, q, d, s)
  {
    s := AllUpToValue(r.frames);
    var p := TokenStarts(r, c);
    var more: string;
    q, more := LiteralTail(p, rest, v);
    SameValue(r, p, v, q);
    d := TracksBefore(r, p, s, c, more, rest);
  }

  lemma {:induction false} NumberReads(r: Reader, text: string) returns (q: Reader, d: string, s: string)
    requires Due(r) && Dumpable(Num(text))
    ensures ValueRead(r, Num(text), q, d, s)
  {
    s := AllUpToValue(r.frames);
    var c, rest := text[0], text[1..];
    var p := TokenStarts(r, c);
    var more: string;
    q, more := NumberTail(p, TokenFrom(c).n, rest);
    assert text == [c] + rest;
    d := TracksBefore(r, p, s, c, more, rest);
  }

  // ----- strings as values and keys

  /** The opening quote and the characters of a string. */
  lemma {:induction false} QuoteAndText(r: Reader, p: Reader, s: string, role: Role, t: string) returns (q: Reader, body: string)
    requires Holds(r, s) && s == Base(r, role) && Utf8From(Plain, t)
    requires p == ReadStep(r, '"') && p == r.(st := State(In(TStr(Plain), role), r.st.open), buf := "") && InText(p, Plain, role)
    ensures body == "\"" + Escape(t) && Tracks(r, s, body) && q == ReadRun(r, body)
    ensures q == r.(st := State(In(TStr(Plain), role), r.st.open), buf := t, code := q.code)
  {
    hide Tracks, ReadRun, ReadStep, Holds, AllUpToValue, AllUpToKey, InText;
    var e: string, more: string;
    q, e, more := TextReads(p, Plain, role, t);
    assert "\"" + Escape("") == "\"";
    assert "" + t == t;
    body := TracksBefore(r, p, s, '"', more, e);
  }

  lemma {:induction false} QuoteStarts(r: Reader) returns (p: Reader, s: string)
    requires Due(r)
    ensures p == ReadStep(r, '"') && p == r.(st := State(In(TStr(Plain), AsValue), r.st.open), buf := "")
    ensures InText(p, Plain, AsValue) && s == Base(r, AsValue) && Holds(r, s)
  {
    p := TokenStarts(r, '"');
    s := AllUpToValue(r.frames);
  }

  lemma {:induction false} QuoteEnds(r: Reader, t: string, q: Reader) returns (e: Reader)
    requires q == r.(st := State(In(TStr(Plain), AsValue), r.st.open), buf := t, code := q.code)
    ensures e == ReadStep(q, '"') && e.st == State(After, r.st.open) && e.frames == Place(r, Str(t)).frames
    ensures (r.frames == [] ==> e.root == Str(t)) && GotValue(r, Str(t), e)
  {
    e := ReadStep(q, '"');
  }

  lemma {:induction false} DueFacts(r: Reader)
    requires Due(r)
    ensures NoRepeats(r) && ValueNext(r.st)
  {
  }

  lemma {:induction false} StringReads(r: Reader, t: string) returns (q: Reader, d: string, s: string)
    requires Due(r) && Utf8From(Plain, t)
    ensures ValueRead(r, Str(t), q, d, s)
  {
    hide Tracks, ReadRun, ReadStep, Holds, AllUpToValue, AllUpToKey, InText, Due, GotValue, NoRepeats;
    var p: Reader, body: string;
    p, s := QuoteStarts(r);
    p, body := QuoteAndText(r, p, s, AsValue, t);
    q := QuoteEnds(r, t, p);
    DueFacts(r);
    PlacedHolds(r, Str(t), q);
    assert s + body + "\"" == s + Dump(Str(t));
    d := TracksBehind(r, s, body, p, '"', q);
  }

  // ----- keys

  /** A key may come here, in an object that holds `done`. */
  predicate KeyDue(r: Reader, done: seq<Member>) {
    && (r.st.mode == FirstKey || r.st.mode == NextKey) && Fits(r.st) && Mirrors(r.frames, r.st.open) && NoRepeats(r)
    && r.frames != [] && Top(r.frames).ObjectFrame? && Top(r.frames).members == done
  }

  lemma {:induction false} KeyStarts(r: Reader, done: seq<Member>) returns (p: Reader, s: string)
    requires KeyDue(r, done)
    ensures p == ReadStep(r, '"') && p == r.(st := State(In(TStr(Plain), AsKey), r.st.open), buf := "")
    ensures InText(p, Plain, AsKey) && s == Base(r, AsKey) && Holds(r, s)
  {
    p := ReadStep(r, '"');
    s := AllUpToKey(r.frames);
  }

  /** The object waits for the value of `key`. */
  predicate ColonDue(r: Reader, outer: seq<Frame>, open: seq<Container>, done: seq<Member>, key: string) {
    r.st == State(Colon, open) && r.frames == outer + [ObjectFrame(done, key)] && NoRepeats(r)
  }

  lemma {:induction false} KeyEnds(r: Reader, done: seq<Member>, t: string, q: Reader) returns (e: Reader)
    requires KeyDue(r, done) && NewKeyIn(ObjectFrame(done, t))
    requires q == r.(st := State(In(TStr(Plain), AsKey), r.st.open), buf := t, code := q.code)
    ensures e == ReadStep(q, '"') && ColonDue(e, Outer(r.frames), r.st.open, done, t)
    ensures Holds(e, AllUpToKey(r.frames) + Quoted(t))
  {
    e := ReadStep(q, '"');
    assert forall i :: 0 <= i < |r.frames| - 1 ==> e.frames[i] == r.frames[i];
    assert Outer(e.frames) == Outer(r.frames);
  }

  lemma {:induction false} ColonReads(r: Reader, outer: seq<Frame>, open: seq<Container>, done: seq<Member>, key: string, s: string)
    returns (q: Reader)
    requires ColonDue(r, outer, open, done, key) && Mirrors(r.frames, open)
    ensures q == ReadStep(r, ':') && q.st == State(Value, open) && q.frames == r.frames && Due(q)
    ensures s == AllUpToKey(r.frames) + Quoted(key) ==> Holds(q, s + ":") && s + ":" == AllUpToValue(q.frames)
  {
    q := ReadStep(r, ':');
    var f := ObjectFrame(done, key);
    assert Outer(r.frames) == outer && Top(r.frames) == f;
    Associate(AllUpToValue(outer), UpToKey(f), Quoted(key) + ":");
    Associate(AllUpToValue(outer) + UpToKey(f), Quoted(key), ":");
  }

  /** A key and its colon lead to where its value is due. */
  lemma {:induction false} KeyReads(r: Reader, done: seq<Member>, t: string) returns (q: Reader, d: string, s: string)
    requires KeyDue(r, done) && NewKeyIn(ObjectFrame(done, t)) && Utf8From(Plain, t)
    ensures d == Quoted(t) + ":" && s == AllUpToKey(r.frames) && q == ReadRun(r, d) && Tracks(r, s, d)
    ensures Due(q) && q.st == State(Value, r.st.open) && q.frames == Outer(r.frames) + [ObjectFrame(done, t)]
    ensures AllUpToValue(q.frames) == s + d
  {
    hide Tracks, ReadRun, ReadStep, Holds, AllUpToValue, AllUpToKey, InText, Due, NoRepeats, NewKeyIn;
    var p: Reader, body: string;
    p, s := KeyStarts(r, done);
    p, body := QuoteAndText(r, p, s, AsKey, t);
    var e := KeyEnds(r, done, t, p);
    assert s + body + "\"" == s + Quoted(t);
    d := TracksBehind(r, s, body, p, '"', e);
    NamedMirrors(r, done, t, e);
    q := ColonReads(e, Outer(r.frames), r.st.open, done, t, s + d);
    assert s + d + ":" == s + (d + ":");
    d := TracksBehind(r, s, d, e, ':', q);
  }

  lemma {:induction false} NamedMirrors(r: Reader, done: seq<Member>, t: string, e: Reader)
    requires KeyDue(r, done) && ColonDue(e, Outer(r.frames), r.st.open, done, t)
    ensures Mirrors(e.frames, r.st.open) && AllUpToKey(e.frames) == AllUpToKey(r.frames)
  {
    assert Outer(e.frames) == Outer(r.frames);
  }

  // ----- arrays and objects

  lemma {:induction false} AfterStep(q: Reader, c: char)
    requires Settled(q.st).mode == After && (c == ',' || c == ']' || c == '}')
    ensures ReadStep(q, c) == BetweenRead(SettledReader(q), c)
  {
  }

  lemma {:induction false} CommaAfter(r: Reader)
    requires r.st.mode == After && r.frames != [] && Mirrors(r.frames, r.st.open)
    ensures var q := BetweenRead(r, ',');
            q == r.(st := State(if Top(r.frames).ObjectFrame? then NextKey else Value, r.st.open))
  {
  }

  lemma {:induction false} CommaText(frames: seq<Frame>, root: Json)
    requires frames != [] && Filled(Top(frames))
    ensures AllUpToEnd(frames, root) + "," == if Top(frames).ObjectFrame? then AllUpToKey(frames) else AllUpToValue(frames)
  {
    var f := Top(frames);
    Associate(AllUpToValue(Outer(frames)), UpToEnd(f), ",");
    if f.ArrayFrame? {
      Associate("[", DumpItems(f.items), ",");
    } else {
      Associate("{", DumpMembers(f.members), ",");
    }
  }

  /** The frames between values: no key repeats in the outer ones. */
  predicate OuterNew(frames: seq<Frame>) {
    forall i :: 0 <= i < |frames| - 1 ==> NewKeyIn(frames[i])
  }

  /** A comma after a value that was placed in `frames`. */
  lemma {:induction false} CommaReads(q: Reader, open: seq<Container>, frames: seq<Frame>, root: Json) returns (p: Reader, more: string)
    requires Settled(q.st).mode == After && SettledReader(q).st == State(After, open) && SettledReader(q).frames == frames
    requires frames != [] && Mirrors(frames, open) && Filled(Top(frames)) && OuterNew(frames)
    ensures p == ReadStep(q, ',') && p.frames == frames && more == AllUpToEnd(frames, root) + "," && Holds(p, more)
    ensures Top(frames).ArrayFrame? ==> Due(p) && p.st == State(Value, open) && more == AllUpToValue(frames)
    ensures Top(frames).ObjectFrame? ==> KeyDue(p, Top(frames).members) && p.st == State(NextKey, open) && more == AllUpToKey(frames)
  {
    AfterStep(q, ',');
    CommaAfter(SettledReader(q));
    CommaText(frames, root);
    p, more := ReadStep(q, ','), AllUpToEnd(frames, root) + ",";
  }

  lemma {:induction false} CloseAfter(r: Reader)
    requires (r.st.mode == After || r.st.mode == FirstKey || r.st.mode == FirstElem) && Fits(r.st)
    requires r.frames != [] && Mirrors(r.frames, r.st.open)
    ensures var q := BetweenRead(r, Bracket(KindOf(Top(r.frames))));
            q == CloseFrame(r).(st := State(After, r.st.open[..|r.st.open| - 1]))
  {
  }

  /** `q` is inside a container that was opened at `r` and now is `f`, with nothing or a value last. */
  predicate Inside(r: Reader, q: Reader, f: Frame) {
    var e := if Settled(q.st).mode == After then SettledReader(q) else q;
    && e.frames == r.frames + [f] && e.st.open == r.st.open + [KindOf(f)] && Fits(e.st)
    && (e.st.mode == After || e.st.mode == FirstKey || e.st.mode == FirstElem)
  }

  lemma {:induction false} ClosePlaces(r: Reader, q: Reader, f: Frame) returns (p: Reader)
    requires Due(r) && Inside(r, q, f)
    ensures p == ReadStep(q, Bracket(KindOf(f))) && GotValue(r, FrameValue(f), p)
    ensures p.st.mode == After && p.frames == Place(r, FrameValue(f)).frames && (r.frames == [] ==> p.root == FrameValue(f))
  {
    var c := Bracket(KindOf(f));
    p := ReadStep(q, c);
    if Settled(q.st).mode == After { AfterStep(q, c); }
    assert Outer(r.frames + [f]) == r.frames && Top(r.frames + [f]) == f;
    CloseAfter(if Settled(q.st).mode == After then SettledReader(q) else q);
  }

  /** The closing bracket of a container opened at `r`: its value is placed there. */
  lemma {:induction false} CloseReads(r: Reader, q: Reader, f: Frame) returns (p: Reader)
    requires Due(r) && Inside(r, q, f)
    ensures p == ReadStep(q, Bracket(KindOf(f))) && GotValue(r, FrameValue(f), p)
    ensures Holds(p, AllUpToValue(r.frames) + Dump(FrameValue(f)))
  {
    hide Inside, Due, ReadStep, Holds, GotValue, NoRepeats;
    DueFacts(r);
    p := ClosePlaces(r, q, f);
    PlacedHolds(r, FrameValue(f), p);
  }

  lemma {:induction false} OpenSteps(r: Reader)
    requires Due(r)
    ensures ReadStep(r, '[') == r.(st := State(FirstElem, r.st.open + [Arr]), frames := r.frames + [ArrayFrame([])])
    ensures ReadStep(r, '{') == r.(st := State(FirstKey, r.st.open + [Obj]), frames := r.frames + [ObjectFrame([], "")])
  {
  }

  lemma {:induction false} OpenedNew(r: Reader, f: Frame, p: Reader)
    requires Due(r) && p.frames == r.frames + [f] && NewKeyIn(f)
    ensures NoRepeats(p) && Outer(p.frames) == r.frames && Top(p.frames) == f
  {
    assert forall i :: 0 <= i < |r.frames| ==> p.frames[i] == r.frames[i];
  }

  lemma {:induction false} OpenedMirrors(r: Reader, f: Frame, p: Reader)
    requires Due(r) && p.frames == r.frames + [f] && p.st.open == r.st.open + [KindOf(f)]
    ensures Mirrors(p.frames, p.st.open) && TopIs(p.st.open, KindOf(f))
  {
  }

  lemma {:induction false} OpenArray(r: Reader) returns (p: Reader, more: string)
    requires Due(r)
    ensures p == ReadStep(r, '[') && p.st == State(FirstElem, r.st.open + [Arr]) && p.frames == r.frames + [ArrayFrame([])]
    ensures Due(p) && more == AllUpToValue(r.frames) + "[" == AllUpToValue(p.frames) && Holds(p, more)
  {
    OpenSteps(r);
    p, more := ReadStep(r, '['), AllUpToValue(r.frames) + "[";
    hide ReadStep, NoRepeats, Mirrors;
    OpenedNew(r, ArrayFrame([]), p);
    OpenedMirrors(r, ArrayFrame([]), p);
    assert "[" + "" == "[";
  }

  lemma {:induction false} OpenObject(r: Reader) returns (p: Reader, more: string)
    requires Due(r)
    ensures p == ReadStep(r, '{') && p.st == State(FirstKey, r.st.open + [Obj]) && p.frames == r.frames + [ObjectFrame([], "")]
    ensures KeyDue(p, []) && more == AllUpToValue(r.frames) + "{" == AllUpToKey(p.frames) && Holds(p, more)
  {
    OpenSteps(r);
    p, more := ReadStep(r, '{'), AllUpToValue(r.frames) + "{";
    hide ReadStep, NoRepeats, Mirrors;
    OpenedNew(r, ObjectFrame([], ""), p);
    OpenedMirrors(r, ObjectFrame([], ""), p);
    assert "{" + "" == "{";
  }

  /** From `r`, in an array that holds `items[..i]`, reading `d` adds the other items. */
  predicate ItemsRead(r: Reader, items: seq<Json>, i: nat, q: Reader, d: string, s: string)
    requires i <= |items| && r.frames != []
  {
    && d == DumpItems(items[i..]) && s == AllUpToValue(r.frames) && q == ReadRun(r, d) && Tracks(r, s, d)
    && SettledReader(q).st == State(After, r.st.open) && SettledReader(q).frames == Outer(r.frames) + [ArrayFrame(items)]
  }

  predicate MembersRead(r: Reader, members: seq<Member>, i: nat, q: Reader, d: string, s: string)
    requires i <= |members| && r.frames != []
  {
    && d == DumpMembers(members[i..]) && s == AllUpToKey(r.frames) && q == ReadRun(r, d) && Tracks(r, s, d)
    && SettledReader(q).st == State(After, r.st.open)
    && SettledReader(q).frames != [] && Outer(SettledReader(q).frames) == Outer(r.frames)
    && Top(SettledReader(q).frames).ObjectFrame? && Top(SettledReader(q).frames).members == members
  }

  lemma {:induction false} PlacedFrames(r: Reader, v: Json, f: Frame)
    requires Due(r) && r.frames != [] && f == With(Top(r.frames), v)
    ensures Place(r, v).frames == Outer(r.frames) + [f]
    ensures Mirrors(Place(r, v).frames, r.st.open) && OuterNew(Place(r, v).frames) && NewKeyIn(Top(r.frames))
  {
    PlaceFits(r, v);
  }

  /** What is held after the item that was read. */
  lemma {:induction false} ItemPlaced(r: Reader, items: seq<Json>, i: nat, q: Reader, d: string, s: string)
    requires i < |items| && Due(r) && r.frames != [] && Top(r.frames) == ArrayFrame(items[..i]) && ValueRead(r, items[i], q, d, s)
    ensures SettledReader(q).st == State(After, r.st.open)
    ensures var frames := SettledReader(q).frames;
            && frames == Outer(r.frames) + [ArrayFrame(items[..i + 1])] && AllUpToEnd(frames, items[i]) == s + d
            && Mirrors(frames, r.st.open) && OuterNew(frames)
    ensures Settled(q.st).mode == After
  {
    hide Tracks, ReadRun, ReadStep, Holds, AllUpToValue, AllUpToEnd, Due, Mirrors, OuterNew, NewKeyIn, SettledReader;
    assert items[..i] + [items[i]] == items[..i + 1];
    PlacedFrames(r, items[i], ArrayFrame(items[..i + 1]));
    AllUpToEndPlaced(r, items[i]);
    SettledMode(q);
  }

  lemma {:induction false} SettledMode(q: Reader)
    requires SettledReader(q).st.mode == After
    ensures Settled(q.st).mode == After
  {
  }

  lemma {:induction false} LastItem(items: seq<Json>, i: nat)
    requires i < |items|
    ensures i + 1 == |items| ==> DumpItems(items[i..]) == Dump(items[i]) && items[..i + 1] == items
    ensures i + 1 < |items| ==> DumpItems(items[i..]) == Dump(items[i]) + "," + DumpItems(items[i + 1..])
  {
    assert items[i..][0] == items[i] && items[i..][1..] == items[i + 1..];
  }

  lemma {:induction false} LastMember(members: seq<Member>, i: nat)
    requires i < |members|
    ensures i + 1 == |members| ==> DumpMembers(members[i..]) == DumpMember(members[i]) && members[..i + 1] == members
    ensures i + 1 < |members| ==> DumpMembers(members[i..]) == DumpMember(members[i]) + "," + DumpMembers(members[i + 1..])
  {
    assert members[i..][0] == members[i] && members[i..][1..] == members[i + 1..];
  }

  predicate Readable(j: Json) { Dumpable(j) && DistinctKeys(j) }

  /** Reading the dump of a value where one is due gives the value, and the text is held at every step. */
  lemma {:induction false} ValueReads(r: Reader, j: Json) returns (q: Reader, d: string, s: string)
    requires Due(r) && Readable(j)
    ensures ValueRead(r, j, q, d, s)
    decreases j, 1
  {
    hide Due, ValueRead, ReadStep;
    match j {
      case Null =>
        assert "null" == ['n'] + "ull";
        q, d, s := LiteralReads(r, 'n', "ull", j);
      case Bool(b) =>
        assert "true" == ['t'] + "rue" && "false" == ['f'] + "alse";
        if b { q, d, s := LiteralReads(r, 't', "rue", j); } else { q, d, s := LiteralReads(r, 'f', "alse", j); }
      case Num(text) => q, d, s := NumberReads(r, text);
      case Str(t) => q, d, s := StringReads(r, t);
      case Array(items) => q, d, s := ArrayReads(r, items);
      case Object(members) => q, d, s := ObjectReads(r, members);
    }
  }

  lemma {:induction false} DueHolds(r: Reader) returns (s: string)
    requires Due(r)
    ensures s == AllUpToValue(r.frames) && Holds(r, s)
  {
    s := AllUpToValue(r.frames);
  }

  /** A bracket, what is inside, and the bracket that closes. */
  lemma {:induction false} ContainerJoins(r: Reader, c: char, p: Reader, q: Reader, f: Frame, d: string, more: string)
    returns (e: Reader, t: string, s: string)
    requires Due(r) && p == ReadStep(r, c) && more == AllUpToValue(r.frames) + [c]
    requires q == ReadRun(p, d) && Tracks(p, more, d) && Inside(r, q, f)
    requires [c] + d + [Bracket(KindOf(f))] == Dump(FrameValue(f))
    ensures ValueRead(r, FrameValue(f), e, t, s)
  {
    hide Tracks, ReadRun, ReadStep, Holds, Due, GotValue, Inside, AllUpToValue;
    s := DueHolds(r);
    e := CloseReads(r, q, f);
    t := TracksBefore(r, p, s, c, more, d);
    assert s + t + [Bracket(KindOf(f))] == s + Dump(FrameValue(f));
    t := TracksBehind(r, s, t, q, Bracket(KindOf(f)), e);
  }

  lemma {:induction false} TracksNothing(r: Reader, s: string)
    requires Holds(r, s)
    ensures Tracks(r, s, "") && ReadRun(r, "") == r
  {
  }

  lemma {:induction false} ArrayReads(r: Reader, items: seq<Json>) returns (q: Reader, d: string, s: string)
    requires Due(r) && Readable(Array(items))
    ensures ValueRead(r, Array(items), q, d, s)
    decreases Array(items), 0
  {
    hide Tracks, ReadRun, ReadStep, Holds, Due, GotValue, AllUpToValue, ValueRead, DumpItems, Readable;
    var p, more := OpenArray(r);
    q, d := p, "";
    if items == [] {
      TracksNothing(p, more);
    } else {
      assert items[..0] == [] && items[0..] == items;
      assert Top(p.frames) == ArrayFrame([]);
      q, d, s := ItemsReads(p, items, 0);
      SettledMode(q);
      assert Outer(p.frames) == r.frames;
    }
    EmptyDumps();
    q, d, s := ContainerJoins(r, '[', p, q, ArrayFrame(items), d, more);
  }

  lemma {:induction false} EmptyDumps()
    ensures DumpItems([]) == "" && DumpMembers([]) == ""
  {
  }

  lemma {:induction false} ObjectReads(r: Reader, members: seq<Member>) returns (q: Reader, d: string, s: string)
    requires Due(r) && Readable(Object(members))
    ensures ValueRead(r, Object(members), q, d, s)
    decreases Object(members), 0
  {
    hide Tracks, ReadRun, ReadStep, Holds, Due, GotValue, AllUpToValue, ValueRead, DumpMembers, Readable;
    var p, more := OpenObject(r);
    q, d := p, "";
    var f := ObjectFrame([], "");
    if members == [] {
      TracksNothing(p, more);
    } else {
      assert members[..0] == [] && members[0..] == members;
      q, d, s := MembersReads(p, members, 0);
      SettledMode(q);
      assert Outer(p.frames) == r.frames;
      f := Top(SettledReader(q).frames);
      assert SettledReader(q).frames == r.frames + [f];
    }
    EmptyDumps();
    q, d, s := ContainerJoins(r, '{', p, q, f, d, more);
  }

  lemma {:induction false} ReadableItem(items: seq<Json>, i: nat)
    requires Readable(Array(items)) && i < |items|
    ensures Readable(items[i]) && items[i] < Array(items)
  {
    assert items[i] in items;
  }

  lemma {:induction false} ReadableMember(members: seq<Member>, i: nat)
    requires Readable(Object(members)) && i < |members|
    ensures Readable(members[i].value) && Utf8From(Plain, members[i].key) && members[i].value < Object(members)
    ensures NewKeyIn(ObjectFrame(members[..i], members[i].key))
  {
    assert members[i] in members;
  }

  /** A comma after an item, and the items behind it. */
  lemma {:induction false} ItemThenComma(r: Reader, items: seq<Json>, i: nat, q: Reader, d: string, s: string)
    returns (p: Reader, t: string, more: string)
    requires i + 1 < |items| && Due(r) && r.frames != [] && Top(r.frames) == ArrayFrame(items[..i]) && ValueRead(r, items[i], q, d, s)
    ensures p == ReadRun(r, t) && t == d + "," && Tracks(r, s, t) && more == s + t == AllUpToValue(p.frames)
    ensures Due(p) && p.frames == Outer(r.frames) + [ArrayFrame(items[..i + 1])] && p.st.open == r.st.open
  {
    hide Tracks, ReadRun, ReadStep, Holds, Due, GotValue, AllUpToValue, AllUpToEnd;
    ItemPlaced(r, items, i, q, d, s);
    p, more := CommaReads(q, r.st.open, SettledReader(q).frames, items[i]);
    assert s + d + "," == s + (d + ",");
    t := TracksBehind(r, s, d, q, ',', p);
  }

  lemma {:induction false} ItemsJoin(r: Reader, items: seq<Json>, i: nat, p: Reader, t: string, more: string, q: Reader, d: string, s: string)
    returns (all: string)
    requires i + 1 < |items| && r.frames != [] && t == Dump(items[i]) + "," && s == AllUpToValue(r.frames)
    requires p == ReadRun(r, t) && Tracks(r, s, t) && more == s + t
    requires p.frames == Outer(r.frames) + [ArrayFrame(items[..i + 1])] && p.st.open == r.st.open && ItemsRead(p, items, i + 1, q, d, more)
    ensures ItemsRead(r, items, i, q, all, s)
  {
    hide Tracks, ReadRun, ReadStep, Holds, AllUpToValue, DumpItems, Dump;
    LastItem(items, i);
    all := TracksOn(r, p, q, s, more, t, d);
    assert Outer(p.frames) == Outer(r.frames);
  }

  lemma {:induction false} ItemsReads(r: Reader, items: seq<Json>, i: nat) returns (q: Reader, d: string, s: string)
    requires i < |items| && Due(r) && r.frames != [] && Top(r.frames) == ArrayFrame(items[..i]) && Readable(Array(items))
    ensures ItemsRead(r, items, i, q, d, s)
    decreases Array(items), 0, |items| - i
  {
    hide Tracks, ReadRun, ReadStep, Holds, Due, AllUpToValue, DumpItems, Dump, Readable;
    ReadableItem(items, i);
    LastItem(items, i);
    q, d, s := ValueReads(r, items[i]);
    if i + 1 == |items| {
      ItemPlaced(r, items, i, q, d, s);
    } else {
      var p, t, more := ItemThenComma(r, items, i, q, d, s);
      var shown: string;
      assert Top(p.frames) == ArrayFrame(items[..i + 1]);
      q, d, shown := ItemsReads(p, items, i + 1);
      d := ItemsJoin(r, items, i, p, t, more, q, d, s);
    }
  }

  predicate MemberPlaced(r: Reader, members: seq<Member>, i: nat, q: Reader)
    requires i < |members| && r.frames != []
  {
    && Settled(q.st).mode == After && SettledReader(q).st == State(After, r.st.open)
    && SettledReader(q).frames == Outer(r.frames) + [ObjectFrame(members[..i + 1], members[i].key)]
    && Mirrors(SettledReader(q).frames, r.st.open) && OuterNew(SettledReader(q).frames)
  }

  /** A value read under its key is placed in the object. */
  lemma {:induction false} ValueInMember(r: Reader, members: seq<Member>, i: nat, p: Reader, q: Reader, d: string, s: string)
    requires i < |members| && r.frames != [] && NewKeyIn(ObjectFrame(members[..i], members[i].key))
    requires Due(p) && p.st.open == r.st.open && p.frames == Outer(r.frames) + [ObjectFrame(members[..i], members[i].key)]
    requires ValueRead(p, members[i].value, q, d, s)
    ensures MemberPlaced(r, members, i, q) && AllUpToEnd(SettledReader(q).frames, Null) == s + d
  {
    hide Tracks, ReadRun, ReadStep, Holds, AllUpToValue;
    var Member(key, v) := members[i];
    AllUpToEndPlaced(p, v);
    PutNew(members[..i], key, v);
    assert members[..i] + [members[i]] == members[..i + 1];
    assert Top(p.frames) == ObjectFrame(members[..i], key) && Outer(p.frames) == Outer(r.frames);
    SettledMode(q);
  }

  /** A key with its colon and its value, placed in the object. */
  lemma {:induction false} MemberJoins(r: Reader, members: seq<Member>, i: nat, p: Reader, k: string, ks: string, q: Reader, d: string, s: string)
    returns (all: string)
    requires i < |members| && KeyDue(r, members[..i]) && NewKeyIn(ObjectFrame(members[..i], members[i].key))
    requires k == Quoted(members[i].key) + ":" && ks == AllUpToKey(r.frames) && p == ReadRun(r, k) && Tracks(r, ks, k)
    requires Due(p) && p.st.open == r.st.open && p.frames == Outer(r.frames) + [ObjectFrame(members[..i], members[i].key)]
    requires AllUpToValue(p.frames) == ks + k && ValueRead(p, members[i].value, q, d, s)
    ensures all == DumpMember(members[i]) && q == ReadRun(r, all) && Tracks(r, ks, all)
    ensures MemberPlaced(r, members, i, q) && AllUpToEnd(SettledReader(q).frames, Null) == ks + all
  {
    hide Tracks, ReadRun, ReadStep, Holds, AllUpToValue, AllUpToKey, Due, MemberPlaced, GotValue;
    ValueInMember(r, members, i, p, q, d, s);
    all := TracksOn(r, p, q, ks, s, k, d);
    Associate(ks, k, d);
  }

  lemma {:induction false} MemberReads(r: Reader, members: seq<Member>, i: nat) returns (q: Reader, d: string, s: string)
    requires i < |members| && KeyDue(r, members[..i]) && Readable(Object(members))
    ensures d == DumpMember(members[i]) && s == AllUpToKey(r.frames) && q == ReadRun(r, d) && Tracks(r, s, d)
    ensures MemberPlaced(r, members, i, q) && AllUpToEnd(SettledReader(q).frames, Null) == s + d
    decreases Object(members), 0, |members| - i, 0
  {
    hide Tracks, ReadRun, ReadStep, Holds, AllUpToValue, AllUpToKey, Due, MemberPlaced, Readable, ValueRead, NewKeyIn;
    ReadableMember(members, i);
    var p, k, ks := KeyReads(r, members[..i], members[i].key);
    q, d, s := ValueReads(p, members[i].value);
    d := MemberJoins(r, members, i, p, k, ks, q, d, s);
    s := ks;
  }

  /** A comma after a member. */
  lemma {:induction false} MemberThenComma(r: Reader, members: seq<Member>, i: nat, q: Reader, d: string, s: string)
    returns (p: Reader, t: string, more: string)
    requires i + 1 < |members| && r.frames != [] && s == AllUpToKey(r.frames) && q == ReadRun(r, d) && Tracks(r, s, d)
    requires MemberPlaced(r, members, i, q) && AllUpToEnd(SettledReader(q).frames, Null) == s + d
    ensures p == ReadRun(r, t) && t == d + "," && Tracks(r, s, t) && more == s + t == AllUpToKey(p.frames)
    ensures KeyDue(p, members[..i + 1]) && p.st.open == r.st.open
    ensures p.frames != [] && Outer(p.frames) == Outer(r.frames)
  {
    hide Tracks, ReadRun, ReadStep, Holds, KeyDue, AllUpToValue, AllUpToEnd, AllUpToKey;
    var frames := SettledReader(q).frames;
    p, more := CommaReads(q, r.st.open, frames, Null);
    assert s + d + "," == s + (d + ",");
    assert Outer(frames) == Outer(r.frames);
    t := TracksBehind(r, s, d, q, ',', p);
  }

  lemma {:induction false} MembersJoin(r: Reader, members: seq<Member>, i: nat, p: Reader, t: string, more: string, q: Reader, d: string, s: string)
    returns (all: string)
    requires i + 1 < |members| && r.frames != [] && t == DumpMember(members[i]) + "," && s == AllUpToKey(r.frames)
    requires p == ReadRun(r, t) && Tracks(r, s, t) && more == s + t
    requires p.frames != [] && Outer(p.frames) == Outer(r.frames) && p.st.open == r.st.open && MembersRead(p, members, i + 1, q, d, more)
    ensures MembersRead(r, members, i, q, all, s)
  {
    hide Tracks, ReadRun, ReadStep, Holds, AllUpToKey, DumpMembers, DumpMember;
    LastMember(members, i);
    all := TracksOn(r, p, q, s, more, t, d);
  }

  lemma {:induction false} OneMemberRead(r: Reader, members: seq<Member>, i: nat, q: Reader, d: string, s: string)
    requires i + 1 == |members| && r.frames != [] && d == DumpMember(members[i]) && s == AllUpToKey(r.frames)
    requires q == ReadRun(r, d) && Tracks(r, s, d) && MemberPlaced(r, members, i, q)
    ensures MembersRead(r, members, i, q, d, s)
  {
    hide Tracks, ReadRun, ReadStep, Holds, AllUpToKey, DumpMember, SettledReader;
    LastMember(members, i);
    assert Outer(SettledReader(q).frames) == Outer(r.frames);
  }

  lemma {:induction false} MembersReads(r: Reader, members: seq<Member>, i: nat) returns (q: Reader, d: string, s: string)
    requires i < |members| && KeyDue(r, members[..i]) && Readable(Object(members))
    ensures MembersRead(r, members, i, q, d, s)
    decreases Object(members), 0, |members| - i
  {
    q, d, s := MemberReads(r, members, i);
    hide Tracks, ReadRun, ReadStep, Holds, AllUpToKey, MembersRead, MemberPlaced, Readable, SettledReader;
    if i + 1 == |members| {
      OneMemberRead(r, members, i, q, d, s);
    } else {
      var p, t, more := MemberThenComma(r, members, i, q, d, s);
      hide KeyDue;
      var shown: string;
      q, d, shown := MembersReads(p, members, i + 1);
      shown := MembersShown(p, members, i + 1, q, d, shown, more);
      d := MembersJoin(r, members, i, p, t, more, q, d, s);
    }
  }

  lemma {:induction false} MembersShown(r: Reader, members: seq<Member>, i: nat, q: Reader, d: string, s: string, more: string)
    returns (same: string)
    requires i <= |members| && r.frames != [] && MembersRead(r, members, i, q, d, s) && more == AllUpToKey(r.frames)
    ensures same == s == more
  {
    hide Tracks, ReadRun, AllUpToKey;
    same := s;
  }

  // ----- whole texts

  lemma {:induction false} UnreadDue()
    ensures Due(UNREAD) && AllUpToValue([]) == ""
  {
  }

  /** Parsing what a value dumps to gives the value back. */
  lemma {:induction false} DumpReadBack(j: Json)
    requires Dumpable(j) && DistinctKeys(j)
    ensures CanParse(Dump(j)) && ReadText(Dump(j)) == j
  {
    DumpParses(j);
    UnreadDue();
    var q, d, s := ValueReads(UNREAD, j);
  }

  /** Wherever the text of a dump is cut, except inside an escape, the reader holds exactly the part read. */
  lemma {:induction false} CutDumpHeld(j: Json, k: nat)
    requires Dumpable(j) && DistinctKeys(j) && k <= |Dump(j)|
    ensures Holds(ReadRun(UNREAD, Dump(j)[..k]), Dump(j)[..k])
  {
    UnreadDue();
    var q, d, s := ValueReads(UNREAD, j);
    TracksPrefix(UNREAD, "", d, k);
    assert "" + d[..k] == d[..k];
  }
}
