/** What a reasoning block is: where it begins and ends, which text it shows, and what is shown parses to again. */
module ReasoningBlocks {
  import opened ChatParser
  import opened Text
  import opened PartialJson
  import StreamingTheorems

  /** A blank to `std::isspace`, in the C locale. */
  predicate Blank(c: char) { c as int == 0x20 || 0x09 <= c as int <= 0x0D }

  predicate Blanks(s: string, from: nat, to: nat) {
    from <= to <= |s| && forall i :: from <= i < to ==> Blank(s[i])
  }

  /** `t` is `s` without the blanks at both ends. */
  predicate Stripped(s: string, t: string) {
    (t == "" && Blanks(s, 0, |s|)) ||
    exists a, b :: 0 <= a < b <= |s| && t == s[a..b] && Blanks(s, 0, a) && Blanks(s, b, |s|) && !Blank(s[a]) && !Blank(s[b - 1])
  }

  lemma {:induction false} BlankIs(s: string, from: nat, to: nat)
    requires from <= to <= |s|
    ensures Blanks(s, from, to) <==> SpaceIn(s, from, to)
  {
  }

  lemma {:induction false} EmptyStrip(s: string)
    requires AllSpace(s)
    ensures Strip(s) == ""
  {
    StripFrontIs(s, |s|);
  }

  lemma {:induction false} CoreOnly(s: string, a: nat, b: nat)
    requires a < b <= |s| && Blanks(s, 0, a) && Blanks(s, b, |s|) && !Blank(s[a]) && !Blank(s[b - 1])
    ensures Strip(s) == s[a..b]
  {
    hide Strip;
    BlankIs(s, 0, a);
    BlankIs(s, b, |s|);
    StripIs(s, a, b);
  }

  lemma {:induction false} StrippedOnly(s: string, t: string)
    requires Stripped(s, t)
    ensures Strip(s) == t
  {
    hide Strip, Blanks, Blank;
    if t == "" && Blanks(s, 0, |s|) {
      AllBlank(s);
    } else {
      var a, b :| 0 <= a < b <= |s| && t == s[a..b] && Blanks(s, 0, a) && Blanks(s, b, |s|) && !Blank(s[a]) && !Blank(s[b - 1]);
      CoreOnly(s, a, b);
    }
  }

  lemma {:induction false} AllBlank(s: string)
    requires Blanks(s, 0, |s|)
    ensures Strip(s) == ""
  {
    EmptyStrip(s);
  }

  lemma {:induction false} StripHolds(s: string)
    ensures Stripped(s, Strip(s))
  {
    hide Strip;
    var a, b := StreamingTheorems.StripRange(s);
    BlankIs(s, 0, a);
    BlankIs(s, b, |s|);
    if a == b { BlankIs(s, 0, |s|); }
  }

  /** The first `literal` at or after `from` begins at `i`. */
  predicate FirstFrom(input: string, literal: string, from: nat, i: nat) {
    from <= i && OccursAt(input, literal, i) && forall k :: from <= k < i ==> !OccursAt(input, literal, k)
  }

  predicate NoneFrom(input: string, literal: string, from: nat) { forall k :: from <= k <= |input| ==> !OccursAt(input, literal, k) }

  /** The longest end of the input that could become `literal` begins at `p`. */
  predicate HeldBack(input: string, literal: string, p: nat) {
    p < |input| && input[p..] <= literal && forall k :: 0 <= k < p ==> !(input[k..] <= literal)
  }

  predicate NothingHeld(input: string, literal: string) { forall k :: 0 <= k < |input| ==> !(input[k..] <= literal) }

  /** A block was opened before `from`; `r` is how it goes on. */
  predicate BlockFrom(input: string, isPartial: bool, from: nat, endThink: string, r: Reasoning) {
    && r.began
    && ((exists i :: 0 <= i <= |input| && FirstFrom(input, endThink, from, i) && ClosedAt(input, from, i, i + |endThink|, r))
        || (NoneFrom(input, endThink, from) && isPartial && exists p :: from <= p < |input| && HeldBack(input, endThink, p) && ClosedAt(input, from, p, |input|, r))
        || (NoneFrom(input, endThink, from) && from <= |input| && Stripped(input[from..], r.text) && r.closed == !isPartial && r.pos == |input| &&
            (isPartial ==> NothingHeld(input, endThink) || exists p :: 0 <= p < from && HeldBack(input, endThink, p))))
  }

  /** The text ends at `at`, its tag at `end`, and parsing goes on behind the blanks that follow. */
  predicate ClosedAt(input: string, from: nat, at: nat, end: nat, r: Reasoning) {
    && from <= at <= |input| && Stripped(input[from..at], r.text) && r.closed
    && Blanks(input, end, r.pos) && (r.pos < |input| ==> !Blank(input[r.pos]))
  }

  predicate Block(input: string, isPartial: bool, syntax: Syntax, pos: nat, startThink: string, endThink: string, r: Reasoning)
    requires pos <= |input|
  {
    if syntax.format == FormatNone || (!syntax.thinkingForcedOpen && !(startThink <= input[pos..])) then r == Reasoning("", false, pos, false)
    else BlockFrom(input, isPartial, if syntax.thinkingForcedOpen then pos else pos + |startThink|, endThink, r)
  }

  lemma {:induction false} SkipsBlanks(input: string, pos: nat)
    requires pos <= |input|
    ensures var p := SkipSpaces(input, pos); Blanks(input, pos, p) && (p < |input| ==> !Blank(input[p]))
    decreases |input| - pos
  {
    if pos < |input| && IsSpaceC(input[pos]) { SkipsBlanks(input, pos + 1); }
  }

  lemma {:induction false} SkipsOnly(input: string, pos: nat, p: nat)
    requires Blanks(input, pos, p) && (p < |input| ==> !Blank(input[p]))
    ensures SkipSpaces(input, pos) == p
    decreases p - pos
  {
    if pos < p { SkipsOnly(input, pos + 1, p); }
  }

  lemma {:induction false} ClosedExactly(input: string, from: nat, at: nat, end: nat, r: Reasoning)
    requires from <= at <= end <= |input|
    ensures r.began && ClosedAt(input, from, at, end, r) <==> r == Reasoning(Strip(input[from..at]), true, SkipSpaces(input, end), true)
  {
    StripHolds(input[from..at]);
    SkipsBlanks(input, end);
    if ClosedAt(input, from, at, end, r) {
      StrippedOnly(input[from..at], r.text);
      SkipsOnly(input, end, r.pos);
    }
  }

  lemma {:induction false} OpenExactly(input: string, isPartial: bool, from: nat, r: Reasoning)
    requires from <= |input|
    ensures r.began && Stripped(input[from..], r.text) && r.closed == !isPartial && r.pos == |input| <==>
            r == Reasoning(Strip(input[from..]), !isPartial, |input|, true)
  {
    StripHolds(input[from..]);
    if Stripped(input[from..], r.text) { StrippedOnly(input[from..], r.text); }
  }

  lemma {:induction false} HeldOnce(input: string, literal: string)
    ensures forall p: nat, q: nat :: HeldBack(input, literal, p) && HeldBack(input, literal, q) ==> p == q
  {
    forall p: nat, q: nat | HeldBack(input, literal, p) && HeldBack(input, literal, q) ensures p == q {
      if p < q { assert false; }
    }
  }

  lemma {:induction false} HeldExactly(input: string, literal: string)
    ensures var p := PartialStop(input, literal, 0);
            if p < 0 then NothingHeld(input, literal) else HeldBack(input, literal, p) && forall q: nat :: HeldBack(input, literal, q) ==> q == p
    ensures PartialStop(input, literal, 0) < 0 ==> forall q: nat :: !HeldBack(input, literal, q)
    ensures PartialStop(input, literal, 0) >= 0 ==> !NothingHeld(input, literal)
  {
    var p := PartialStop(input, literal, 0);
    HeldOnce(input, literal);
  }

  lemma {:induction false} FirstFromFound(input: string, literal: string, from: nat)
    requires from <= |input|
    ensures var p := Find(input, literal, from);
            if p < 0 then NoneFrom(input, literal, from) && forall i: nat :: !FirstFrom(input, literal, from, i)
            else FirstFrom(input, literal, from, p) && !NoneFrom(input, literal, from) && forall i: nat :: FirstFrom(input, literal, from, i) ==> i == p
  {
    var p := Find(input, literal, from);
    forall i: nat | FirstFrom(input, literal, from, i) ensures i == p {
      assert OccursAt(input, literal, i);
    }
  }

  lemma {:induction false} BlockFromExactly(input: string, isPartial: bool, from: nat, endThink: string, r: Reasoning)
    requires from <= |input|
    ensures BlockFrom(input, isPartial, from, endThink, r) <==> r == ReasoningFrom(input, isPartial, from, endThink)
  {
    hide FirstFrom, NoneFrom, HeldBack, NothingHeld, ClosedAt, Stripped, Strip, SkipSpaces;
    var i, p := Find(input, endThink, from), PartialStop(input, endThink, 0);
    FirstFromFound(input, endThink, from);
    HeldExactly(input, endThink);
    OpenExactly(input, isPartial, from, r);
    if i >= 0 {
      ClosedExactly(input, from, i, i + |endThink|, r);
    } else if p >= from {
      ClosedExactly(input, from, p, |input|, r);
    }
  }

  /** The parser takes exactly the block there is. */
  lemma {:induction false} BlockExactly(input: string, isPartial: bool, syntax: Syntax, pos: nat, startThink: string, endThink: string, r: Reasoning)
    requires pos <= |input|
    ensures Block(input, isPartial, syntax, pos, startThink, endThink, r) <==> r == ReasoningAt(input, isPartial, syntax, pos, startThink, endThink)
  {
    hide BlockFrom, ReasoningFrom;
    if syntax.thinkingForcedOpen {
      BlockFromExactly(input, isPartial, pos, endThink, r);
    } else if startThink <= input[pos..] {
      BlockFromExactly(input, isPartial, pos + |startThink|, endThink, r);
    }
  }

  /** What is shown of a block in the content, parsed again, is that block, exactly when its text is without
      blanks at both ends and the closing tag neither is in it nor begins in it and runs over its end. */
  lemma {:induction false} ShownAgain(t: string, isPartial: bool, syntax: Syntax, startThink: string, endThink: string) returns (shown: string)
    requires syntax.format != FormatNone && !syntax.thinkingForcedOpen && endThink != ""
    ensures shown == startThink + t + endThink
    ensures ReasoningAt(shown, isPartial, syntax, 0, startThink, endThink) == Reasoning(t, true, |shown|, true) <==>
            Stripped(t, t) && !Occurs(t, endThink) && forall p :: 0 < p < |endThink| ==> !Straddles(t, endThink, p)
  {
    hide Stripped, Strip, Straddles, Occurs;
    shown := startThink + t + endThink;
    var from := |startThink|;
    assert shown[from..] == t + endThink + "" && startThink <= shown;
    FindInRest(shown, endThink, from);
    FirstAtJoin(t, endThink, "");
    EndsThere(shown, from + |t|, endThink);
    StrippedItself(t);
    var p := Find(shown, endThink, from);
    assert shown[from..from + |t|] == t;
    ShorterText(shown[from..p]);
  }

  lemma {:induction false} ShorterText(s: string)
    ensures |Strip(s)| <= |s|
  {
    var a, b := StreamingTheorems.StripRange(s);
  }

  lemma {:induction false} StrippedItself(t: string)
    ensures Stripped(t, t) <==> Strip(t) == t
  {
    StripHolds(t);
    if Stripped(t, t) { StrippedOnly(t, t); }
  }

  lemma {:induction false} EndsThere(s: string, p: nat, literal: string)
    requires p + |literal| == |s| && s[p..] == literal
    ensures OccursAt(s, literal, p) && SkipSpaces(s, p + |literal|) == |s|
  {
  }

  lemma {:induction false} FindInRest(s: string, literal: string, from: nat)
    requires from <= |s|
    ensures var p := Find(s[from..], literal, 0); Find(s, literal, from) == if p >= 0 then from + p else -1
  {
    var rest := s[from..];
    assert s == s[..from] + rest;
    var p := Find(rest, literal, 0);
    forall i: nat ensures OccursAt(s, literal, from + i) <==> OccursAt(rest, literal, i) {
      OccursShift(s[..from], rest, literal, i);
    }
    if p >= 0 {
      forall k | from <= k < from + p ensures !OccursAt(s, literal, k) { assert !OccursAt(rest, literal, k - from); }
      FindIs(s, literal, from, from + p);
    } else {
      forall k | from <= k ensures !OccursAt(s, literal, k) { assert !OccursAt(rest, literal, k - from); }
    }
  }
}
