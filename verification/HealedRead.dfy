/** The value a healed text reads as. */
module HealedRead {
  import opened JsonText
  import opened JsonValue
  import opened JsonRead
  import opened SaxEvents
  import opened PartialJson
  import opened HealingTheorems

  // ----- what healing writes, and from which state

  /** A state from which the branch writes: as `Suits`, and what ends there is not a number. */
  predicate Starts(b: Branch, st: State) {
    Suits(b, st) && st.open != [] && (b == ArrayNext || b == NextPair ==> st.mode == After)
  }

  /** Cutting back and writing a string is what is done where a value is due. */
  function Written(b: Branch): Branch { if CutsBack(b) then ObjectValue else b }

  /** A text that heals to one that parses: what is kept leads to a state its branch starts from, with the
      same containers open, and the rest of the text is what that branch writes. */
  predicate Heals(str: string, marker: string) {
    var st := Run(START, str);
    && st.mode != Dead && st.open != [] && LegalMarker(marker)
    && StackAfter(str) != [] && LastNonSpace(str) >= 0
    && var h := Heal(str, StackAfter(str), marker); h.Healed? && CanParse(h.Text())
  }

  function BranchOf(str: string): Branch
    requires str != "" && Run(START, str).open != []
  {
    Written(BranchAt(Run(START, str), str[|str| - 1]))
  }

  lemma {:induction false} StartsAt(st: State, back: char)
    requires Fits(st) && st.mode != Dead && st.open != [] && !CutsBack(BranchAt(st, back))
    ensures Starts(BranchAt(st, back), st)
  {
  }

  lemma {:induction false} WrittenStarts(b: Branch, str: string, open: seq<Container>, marker: string)
    requires open != [] && LegalMarker(marker)
    requires var h := Write(b, str, ClosingOf(open), marker); h.Healed? && CanParse(h.Text())
    requires !CutsBack(b) ==> Starts(b, Run(START, str)) && Run(START, str).open == open
    ensures var h := Write(b, str, ClosingOf(open), marker);
            && Starts(Written(b), Run(START, h.kept)) && Run(START, h.kept).open == open
            && h.dumpMarker == Lead(Written(b)) + marker && h.tail == Tail(Written(b)) + ClosingOf(open)
            && (!CutsBack(b) ==> h.kept == str)
  {
    if CutsBack(b) {
      CutWritesExactly(b, str, open, marker);
    } else {
      assert str[..|str|] == str;
    }
  }

  /** Where healing starts to write, and what it writes. */
  lemma {:induction false} HealedParts(str: string, marker: string) returns (h: Healing, b: Branch, st: State)
    requires Heals(str, marker)
    ensures str != "" && b == BranchOf(str) && h == Heal(str, StackAfter(str), marker) && st == Run(START, h.kept)
    ensures Starts(b, st) && st.open == Run(START, str).open
    ensures h.dumpMarker == Lead(b) + marker && h.tail == Tail(b) + ClosingOf(st.open)
  {
    var at := Run(START, str);
    var branch := BranchAt(at, str[|str| - 1]);
    HealWrites(str, marker);
    RunFits(START, str);
    if !CutsBack(branch) { StartsAt(at, str[|str| - 1]); }
    WrittenStarts(branch, str, at.open, marker);
    h, b := Heal(str, StackAfter(str), marker), BranchOf(str);
    st := Run(START, h.kept);
  }

  // ----- reading on

  /** The string the marker is appended to. */
  function Stem(b: Branch, r: Reader): string {
    if Lead(b) == "" then r.buf else if Lead(b) == "\\" then r.buf + "\\" else ""
  }

  lemma {:induction false} QuoteReads(b: Branch, r: Reader)
    requires FitsReader(r) && Suits(b, r.st) && Lead(b) == "\""
    ensures ReadStep(r, '"') == r.(st := State(In(TStr(Plain), RoleWritten(b)), r.st.open), buf := "")
  {
  }

  lemma {:induction false} SeparatorReads(b: Branch, r: Reader)
    requires FitsReader(r) && Starts(b, r.st) && |Lead(b)| == 2
    ensures ReadStep(ReadStep(r, Lead(b)[0]), '"') == r.(st := State(In(TStr(Plain), RoleWritten(b)), r.st.open), buf := "")
  {
  }

  lemma {:induction false} LeadReads(b: Branch, r: Reader) returns (q: Reader)
    requires FitsReader(r) && Starts(b, r.st)
    ensures q == ReadRun(r, Lead(b)) == r.(st := State(In(TStr(Plain), RoleWritten(b)), r.st.open), buf := Stem(b, r))
  {
    q := r.(st := State(In(TStr(Plain), RoleWritten(b)), r.st.open), buf := Stem(b, r));
    if Lead(b) == "\"" {
      QuoteReads(b, r);
      ReadOne(r, '"');
    } else if Lead(b) == "\\" {
      ReadOne(r, '\\');
    } else if |Lead(b)| == 2 {
      SeparatorReads(b, r);
      ReadOne(r, Lead(b)[0]);
      ReadOne(ReadStep(r, Lead(b)[0]), '"');
      ReadConcat(r, [Lead(b)[0]], ['"']);
      assert Lead(b) == [Lead(b)[0]] + ['"'];
    }
  }

  lemma {:induction false} MarkerReads(r: Reader, s: StrState, role: Role, m: string) returns (q: Reader)
    requires r.st.mode == In(TStr(s), role) && StaysPlain(s, m) && (s == Plain || (s.Utf8? && 0x80 as char <= s.lo))
    ensures q == ReadRun(r, m) == r.(st := State(In(TStr(Plain), role), r.st.open), buf := r.buf + m)
    decreases |m|
  {
    if m == "" {
      q := r;
      assert r.buf + m == r.buf;
    } else {
      var p := ReadStep(r, m[0]);
      q := MarkerReads(p, StrStep(s, m[0]).s, role, m[1..]);
      assert r.buf + m == p.buf + m[1..];
    }
  }

  /** The innermost container with what the branch puts there: a string, or a member named so. */
  function HealedTop(b: Branch, f: Frame, t: string): Frame {
    if RoleWritten(b) == AsKey then With(Named(f, t), Num("1")) else With(f, Str(t))
  }

  /** `q` has the given containers, after a value that may be a number. */
  predicate Ends(q: Reader, open: seq<Container>, frames: seq<Frame>) {
    SettledReader(q).st == State(After, open) && SettledReader(q).frames == frames
  }

  lemma {:induction false} ValueTail(r: Reader) returns (q: Reader)
    requires r.st.mode == In(TStr(Plain), AsValue) && r.frames != []
    ensures q == ReadRun(r, "\"") && Ends(q, r.st.open, Outer(r.frames) + [With(Top(r.frames), Str(r.buf))])
  {
    ReadOne(r, '"');
    q := ReadStep(r, '"');
  }

  lemma {:induction false} KeyTailSteps(r: Reader) returns (q: Reader)
    requires r.st.mode == In(TStr(Plain), AsKey) && r.frames != []
    ensures q == ReadStep(ReadStep(ReadStep(ReadStep(r, '"'), ':'), ' '), '1')
    ensures Ends(q, r.st.open, Outer(r.frames) + [With(Named(Top(r.frames), r.buf), Num("1"))])
  {
    var q1 := ReadStep(r, '"');
    var frames := Outer(r.frames) + [Named(Top(r.frames), r.buf)];
    assert q1.st == State(Colon, r.st.open) && q1.frames == frames;
    var q2 := ReadStep(q1, ':');
    assert q2.st == State(Value, r.st.open) && q2.frames == frames;
    var q3 := ReadStep(q2, ' ');
    assert q3 == q2;
    q := ReadStep(q3, '1');
    assert q.st == State(In(TNum(Digits), AsValue), r.st.open) && q.frames == frames && q.buf == "1";
    assert Outer(frames) == Outer(r.frames);
  }

  lemma {:induction false} KeyTail(r: Reader) returns (q: Reader)
    requires r.st.mode == In(TStr(Plain), AsKey) && r.frames != []
    ensures q == ReadRun(r, "\": 1") && Ends(q, r.st.open, Outer(r.frames) + [With(Named(Top(r.frames), r.buf), Num("1"))])
  {
    q := KeyTailSteps(r);
    hide ReadStep;
    var q1 := ReadStep(r, '"');
    var q2 := ReadStep(q1, ':');
    var q3 := ReadStep(q2, ' ');
    assert "\": 1"[0] == '"' && "\": 1"[1..] == ": 1" && ": 1"[0] == ':' && ": 1"[1..] == " 1" && " 1"[0] == ' ' && " 1"[1..] == "1";
    assert ReadRun(r, "\": 1") == ReadRun(q1, ": 1") == ReadRun(q2, " 1") == ReadRun(q3, "1");
    ReadOne(q3, '1');
  }

  lemma {:induction false} TailReads(b: Branch, r: Reader) returns (q: Reader)
    requires r.st.mode == In(TStr(Plain), RoleWritten(b)) && r.frames != []
    ensures q == ReadRun(r, Tail(b)) && Ends(q, r.st.open, Outer(r.frames) + [HealedTop(b, Top(r.frames), r.buf)])
  {
    if Tail(b) == "\"" { q := ValueTail(r); } else { q := KeyTail(r); }
  }

  /** The value of the outermost container when all of them are closed. */
  function Collapsed(frames: seq<Frame>): Json
    requires frames != []
    decreases |frames|
  {
    if |frames| == 1 then FrameValue(frames[0])
    else
      var outer := Outer(frames);
      Collapsed(Outer(outer) + [With(Top(outer), FrameValue(Top(frames)))])
  }

  lemma {:induction false} BracketReads(q: Reader, open: seq<Container>, frames: seq<Frame>) returns (p: Reader)
    requires Ends(q, open, frames) && frames != [] && Mirrors(frames, open)
    ensures p == ReadStep(q, Bracket(open[|open| - 1]))
    ensures |frames| == 1 ==> p.st == State(After, []) && p.root == Collapsed(frames)
    ensures |frames| > 1 ==>
              var outer := Outer(frames);
              var next := Outer(outer) + [With(Top(outer), FrameValue(Top(frames)))];
              Ends(p, open[..|open| - 1], next) && Mirrors(next, open[..|open| - 1]) && Collapsed(frames) == Collapsed(next)
  {
    p := ReadStep(q, Bracket(open[|open| - 1]));
    var e := SettledReader(q);
    assert KindOf(Top(frames)) == open[|open| - 1];
    assert p == BetweenRead(e, Bracket(open[|open| - 1]));
    assert p == CloseFrame(e).(st := State(After, open[..|open| - 1]));
  }

  /** Closing everything leaves the collapsed value at the root. */
  lemma {:induction false} ClosingReads(q: Reader, open: seq<Container>, frames: seq<Frame>) returns (p: Reader)
    requires Ends(q, open, frames) && frames != [] && Mirrors(frames, open)
    ensures p == ReadRun(q, ClosingOf(open)) && p.st == State(After, []) && p.root == Collapsed(frames)
    decreases |frames|
  {
    var c, rest := Bracket(open[|open| - 1]), ClosingOf(open[..|open| - 1]);
    p := BracketReads(q, open, frames);
    hide ReadStep, Collapsed, Mirrors;
    assert ClosingOf(open)[1..] == rest;
    if |frames| == 1 {
      assert rest == "";
    } else {
      var outer := Outer(frames);
      p := ClosingReads(p, open[..|open| - 1], Outer(outer) + [With(Top(outer), FrameValue(Top(frames)))]);
    }
  }

  /** The value of a text that stops at `r` and is completed by branch `b` with marker `m`. */
  function HealedValue(b: Branch, r: Reader, m: string): Json
    requires r.frames != []
  {
    Collapsed(Outer(r.frames) + [HealedTop(b, Top(r.frames), Stem(b, r) + m)])
  }

  lemma {:induction false} HealedTopKind(b: Branch, f: Frame, t: string)
    ensures KindOf(HealedTop(b, f, t)) == KindOf(f)
  {
  }

  lemma {:induction false} HealedMirrors(b: Branch, r: Reader, t: string) returns (frames: seq<Frame>)
    requires FitsReader(r) && r.frames != []
    ensures frames == Outer(r.frames) + [HealedTop(b, Top(r.frames), t)] && Mirrors(frames, r.st.open)
  {
    frames := Outer(r.frames) + [HealedTop(b, Top(r.frames), t)];
    HealedTopKind(b, Top(r.frames), t);
  }

  /** What the branch writes and the closing brackets, read from `r`. */
  lemma {:induction false} HealingReads(b: Branch, r: Reader, m: string) returns (t: string, p: Reader)
    requires FitsReader(r) && Starts(b, r.st) && LegalMarker(m)
    ensures t == Lead(b) + m + (Tail(b) + ClosingOf(r.st.open)) && p == ReadRun(r, t)
    ensures p.st == State(After, []) && r.frames != [] && p.root == HealedValue(b, r, m)
  {
    hide ReadStep, ReadRun, Collapsed, Mirrors, Tail, Lead;
    var q := LeadReads(b, r);
    q := MarkerReads(q, Plain, RoleWritten(b), m);
    FramesOpen(r);
    q := TailReads(b, q);
    var frames := HealedMirrors(b, r, Stem(b, r) + m);
    p := ClosingReads(q, r.st.open, frames);
    t := Lead(b) + m + (Tail(b) + ClosingOf(r.st.open));
    ReadConcat(r, Lead(b), m);
    ReadConcat(ReadRun(r, Lead(b) + m), Tail(b), ClosingOf(r.st.open));
    ReadConcat(r, Lead(b) + m, Tail(b) + ClosingOf(r.st.open));
  }

  lemma {:induction false} FramesOpen(r: Reader)
    requires FitsReader(r) && r.st.open != []
    ensures r.frames != []
  {
  }

  /** The reader at the end of what healing keeps. */
  function ReaderAt(kept: string): Reader { ReadRun(UNREAD, kept) }

  lemma {:induction false} ReaderAtFits(kept: string) returns (r: Reader)
    ensures r == ReaderAt(kept) && FitsReader(r) && r.st == Run(START, kept)
  {
    r := ReaderAt(kept);
    RunFitsReader(UNREAD, kept);
    ReadFollows(UNREAD, kept);
  }

  lemma {:induction false} RootRead(s: string, p: Reader)
    requires p == ReadRun(UNREAD, s) && p.st == State(After, [])
    ensures ReadText(s) == p.root
  {
  }

  /** Every text that heals reads, once healed, as the value it had begun with the marker put where it
      stopped, and every container closed. */
  lemma {:induction false} HealedTextReads(str: string, marker: string) returns (h: Healing, b: Branch, r: Reader)
    requires Heals(str, marker)
    ensures str != "" && b == BranchOf(str) && h == Heal(str, StackAfter(str), marker) && r == ReaderAt(h.kept)
    ensures FitsReader(r) && Starts(b, r.st) && r.st.open == Run(START, str).open && r.frames != []
    ensures h.dumpMarker == Lead(b) + marker && h.tail == Tail(b) + ClosingOf(r.st.open)
    ensures ReadText(h.Text()) == HealedValue(b, r, marker)
  {
    hide ReadStep, ReadRun, Collapsed, Mirrors, Tail, Lead, HealedValue, Run, FitsReader, Starts;
    var st: State;
    h, b, st := HealedParts(str, marker);
    r := ReaderAtFits(h.kept);
    var t, p := HealingReads(b, r, marker);
    assert h.Text() == h.kept + t;
    ReadConcat(UNREAD, h.kept, t);
    RootRead(h.Text(), p);
  }
}
