/** Cutting the dump of a healed value, and cleaning it, from the text onwards. */
module HealedCut {
  import opened Collections
  import opened CommonJson
  import opened DumpRead
  import opened HealedDump
  import opened HealedRead
  import opened HealingTheorems
  import opened JsonClean
  import opened JsonRead
  import opened JsonText
  import opened JsonValue
  import opened PartialJson
  import opened SaxEvents
  import opened Text
  import CleanTheorems

  // ----- where the marker can be

  /** A marker no character of which is escaped when dumped, or separates values; digits are. */
  predicate PlainMarker(m: string) {
    CleanTheorems.Unescaped(m) && ':' !in m && ',' !in m
  }

  lemma {:induction false} PlainCharacters(m: string)
    requires PlainMarker(m)
    ensures '"' !in m && '\\' !in m
  {
    forall i | 0 <= i < |m| ensures m[i] != '"' && m[i] != '\\' {
      assert EscapeChar(m[i]) == [m[i]];
    }
  }

  lemma {:induction false} DigitsArePlain(m: string)
    requires AllDigits(m)
    ensures PlainMarker(m) && LegalMarker(m)
  {
    DigitsAreLegal(m);
  }

  lemma {:induction false} LastCharacterOf(t: string, m: string, i: int, p: nat)
    requires m != "" && t != ""
    ensures OccursAt(t, m, i) && i + |m| == |t| ==> m[|m| - 1] == t[|t| - 1]
    ensures Straddles(t, m, p) ==> m[p - 1] == t[|t| - 1]
  {
    if OccursAt(t, m, i) { assert t[i..i + |m|][|m| - 1] == t[i + |m| - 1]; }
    if Straddles(t, m, p) { assert t[|t| - p..][p - 1] == t[|t| - 1] && m[..p][p - 1] == m[p - 1]; }
  }

  /** A character that is not in the marker, at the end of a text without it. */
  lemma {:induction false} OccursNotWith(s: string, c: char, m: string)
    requires !Occurs(s, m) && c !in m && m != ""
    ensures !Occurs(s + [c], m)
    ensures forall p :: 0 < p < |m| ==> !Straddles(s + [c], m, p)
  {
    var t := s + [c];
    forall i | 0 <= i <= |t| ensures !OccursAt(t, m, i) {
      LastCharacterOf(t, m, i, 0);
      if i + |m| <= |s| { OccursInside(s, m, [c], i); }
    }
    forall p | 0 < p < |m| ensures !Straddles(t, m, p) {
      LastCharacterOf(t, m, 0, p);
    }
  }

  lemma {:induction false} WithLead(b: Branch, s: string, m: string)
    requires PlainMarker(m) && !Occurs(s, m)
    ensures !Occurs(s + Lead(b), m)
    ensures Lead(b) != "" ==> forall p :: 0 < p < |m| ==> !Straddles(s + Lead(b), m, p)
  {
    var lead := Lead(b);
    PlainCharacters(m);
    if lead == "" {
      assert s + lead == s;
    } else if |lead| == 1 {
      assert lead == [lead[0]];
      OccursNotWith(s, lead[0], m);
    } else {
      assert s + lead == s + [lead[0]] + [lead[1]];
      OccursNotWith(s, lead[0], m);
      OccursNotWith(s + [lead[0]], lead[1], m);
    }
  }

  lemma {:induction false} EachFree(f: Frame, m: string)
    requires CleanTheorems.Unescaped(m) && !Occurs(UpToKey(f), m)
    ensures Free(m, FrameValue(f))
  {
    match f {
      case ArrayFrame(items) =>
        NotOccursParts("[", EachItem(items), m);
        if items != [] { NotOccursParts(DumpItems(items), ",", m); }
        CleanTheorems.DumpItemsFree(m, items);
      case ObjectFrame(members, _) =>
        NotOccursParts("{", EachMember(members), m);
        if members != [] { NotOccursParts(DumpMembers(members), ",", m); }
        CleanTheorems.DumpMembersFree(m, members);
    }
  }

  lemma {:induction false} UpToValueFree(f: Frame, m: string)
    requires CleanTheorems.Unescaped(m) && !Occurs(UpToValue(f), m)
    ensures OpenFree(f, m)
  {
    if f.ObjectFrame? {
      NotOccursParts(UpToKey(f), Quoted(f.key) + ":", m);
      NotOccursParts(Quoted(f.key), ":", m);
      CleanTheorems.QuotedFree(f.key, m);
    }
    EachFree(f, m);
  }

  lemma {:induction false} AllUpToValueFree(frames: seq<Frame>, m: string)
    requires CleanTheorems.Unescaped(m) && !Occurs(AllUpToValue(frames), m)
    ensures forall i :: 0 <= i < |frames| ==> OpenFree(frames[i], m)
    decreases |frames|
  {
    if frames != [] {
      hide OpenFree, UpToValue, Occurs;
      var outer := Outer(frames);
      NotOccursParts(AllUpToValue(outer), UpToValue(Top(frames)), m);
      AllUpToValueFree(outer, m);
      UpToValueFree(Top(frames), m);
      forall i | 0 <= i < |frames| ensures OpenFree(frames[i], m) {
        if i < |frames| - 1 { assert frames[i] == outer[i]; }
      }
    }
  }

  lemma {:induction false} UnescapedPlain(m: string)
    requires PlainMarker(m)
    ensures CleanTheorems.Unescaped(m) && m != ""
  {
  }

  /** A marker that is not in what was read, written as a dump, is in no container and no pending string. */
  lemma {:induction false} RenderedFree(b: Branch, r: Reader, m: string)
    requires FitsReader(r) && Starts(b, r.st) && r.frames != [] && PlainMarker(m) && !Occurs(Rendered(r), m)
    ensures OuterFree(r.frames, m) && !Occurs(Stem(b, r), m)
    ensures if RoleWritten(b) == AsKey then Free(m, FrameValue(Top(r.frames))) else OpenFree(Top(r.frames), m)
  {
    hide Rendered, Starts, FitsReader, Stem, AllUpToValue, AllUpToKey, UpToKey, UpToValue, Lead, OpenFree, Free, Occurs, Escape, PlainMarker;
    UnescapedPlain(m);
    LeadRendered(b, r);
    WithLead(b, Rendered(r), m);
    var base := Base(r, RoleWritten(b));
    NotOccursParts(base, "\"" + Escape(Stem(b, r)), m);
    NotOccursParts("\"", Escape(Stem(b, r)), m);
    CleanTheorems.OccursEscaped(Stem(b, r), m);
    BaseIs(b, r);
    NotOccursParts(AllUpToValue(Outer(r.frames)), UpTo(b, Top(r.frames)), m);
    AllUpToValueFree(Outer(r.frames), m);
    if RoleWritten(b) == AsKey { EachFree(Top(r.frames), m); } else { UpToValueFree(Top(r.frames), m); }
  }

  lemma {:induction false} FreshKey(f: Frame, p: string, m: string)
    requires f.ObjectFrame? && Free(m, FrameValue(f)) && m != ""
    ensures NewKeyIn(Named(f, p + m))
  {
    assert (p + m)[|p|..|p| + |m|] == m;
    assert OccursAt(p + m, m, |p|);
  }

  /** With such a marker the key healing writes is new. */
  lemma {:induction false} KeysAreNew(b: Branch, r: Reader, m: string)
    requires FitsReader(r) && Starts(b, r.st) && r.frames != [] && PlainMarker(m) && !Occurs(Rendered(r), m) && NoRepeats(r)
    ensures NewKeys(b, r, m)
  {
    RenderedFree(b, r, m);
    TopKind(b, r);
    if RoleWritten(b) == AsKey {
      FreshKey(Top(r.frames), Stem(b, r), m);
    } else {
      ValueBranch(b, r);
    }
  }

  lemma {:induction false} ValueBranch(b: Branch, r: Reader)
    requires FitsReader(r) && Starts(b, r.st) && r.frames != [] && RoleWritten(b) == AsValue && NoRepeats(r)
    ensures NewKeyIn(Top(r.frames))
  {
    assert KindOf(Top(r.frames)) == r.st.open[|r.st.open| - 1];
    if b != ArrayNext { assert ValueNext(r.st); }
  }

  lemma {:induction false} StraddlePlain(b: Branch, r: Reader, m: string, p: nat)
    requires PlainMarker(m) && Straddles(Stem(b, r), m, p)
    ensures Lead(b) == ""
  {
    PlainCharacters(m);
    LastCharacterOf(Stem(b, r), m, 0, p);
  }

  lemma {:induction false} StringRendered(b: Branch, r: Reader) returns (base: string)
    requires FitsReader(r) && Starts(b, r.st) && Lead(b) == ""
    ensures Rendered(r) == base + Escape(Stem(b, r))
  {
    LeadRendered(b, r);
    hide Rendered, Starts, FitsReader, Stem, Escape, AllUpToKey, AllUpToValue;
    base := Base(r, RoleWritten(b)) + "\"";
    Associate(Base(r, RoleWritten(b)), "\"", Escape(Stem(b, r)));
    assert Rendered(r) + "" == Rendered(r);
  }

  /** Where what was read ends with the beginning of the marker, so does its dump. */
  lemma {:induction false} StemStraddles(b: Branch, r: Reader, m: string, p: nat)
    requires FitsReader(r) && Starts(b, r.st) && PlainMarker(m) && Straddles(Stem(b, r), m, p)
    ensures Lead(b) == "" && Straddles(Rendered(r), m, p)
  {
    hide Rendered, Starts, FitsReader, Stem, Escape;
    StraddlePlain(b, r, m, p);
    var base := StringRendered(b, r);
    EndsEscaped(Stem(b, r), m[..p]);
    CleanTheorems.EndsWithLonger(base, Escape(Stem(b, r)), m[..p]);
  }

  lemma {:induction false} EndsEscaped(s: string, e: string)
    requires CleanTheorems.EndsWith(s, e) && forall i :: 0 <= i < |e| ==> EscapeChar(e[i]) == [e[i]]
    ensures CleanTheorems.EndsWith(Escape(s), e)
  {
    var a := s[..|s| - |e|];
    assert s == a + e;
    EscapeConcat(a, e);
    EscapeUnescaped(e);
  }

  // ----- cutting the dump

  /** Cutting the dump of the healed value at the first `json_dump_marker` gives what was read, written as a
      dump, exactly when that marker neither occurs in it nor runs over its end. */
  lemma {:induction false} CutExactly(b: Branch, r: Reader, m: string) returns (d: string, text: string, dm: string)
    requires FitsReader(r) && Starts(b, r.st) && CleanTheorems.Unescaped(m)
    requires r.frames != [] && NewKeys(b, r, m)
    ensures d == Dump(HealedValue(b, r, m)) && text == Rendered(r) && dm == Lead(b) + m
    ensures d == text + dm + (DumpTail(b) + ClosingOf(r.st.open))
    ensures Find(d, dm, 0) == |text| <==> !Occurs(text, dm) && forall p :: 0 < p < |dm| ==> !Straddles(text, dm, p)
  {
    hide Rendered, Starts, FitsReader, Dump, HealedValue, Lead, NewKeys, Occurs, Straddles;
    var front, after := HealedDumped(b, r, m);
    d, text, dm := Dump(HealedValue(b, r, m)), Rendered(r), Lead(b) + m;
    Associate(text, Lead(b), m);
    assert dm != "";
    FirstAtJoin(text, dm, after);
  }

  // ----- the marker in the dump of a healed value

  lemma {:induction false} BeforeItemsMore(m: string, items: seq<Json>, v: Json)
    ensures CleanTheorems.BeforeItems(m, items + [v]) == EachItem(items) + CleanTheorems.BeforeJoin(m, v)
    decreases |items|
  {
    if items == [] {
      assert items + [v] == [v];
    } else {
      var head, rest := Dump(items[0]), items[1..];
      BeforeItemsMore(m, rest, v);
      assert (items + [v])[1..] == rest + [v] && (items + [v])[0] == items[0];
      Associate(head + ",", EachItem(rest), CleanTheorems.BeforeJoin(m, v));
      Associate(head + ",", DumpItems(rest), ",");
      if rest == [] { assert items == [items[0]] && (head + ",") + "" == head + ","; }
    }
  }

  lemma {:induction false} BeforeMembersMore(m: string, members: seq<Member>, x: Member)
    ensures CleanTheorems.BeforeMembers(m, members + [x]) == EachMember(members) + CleanTheorems.BeforeMembers(m, [x])
    decreases |members|
  {
    if members == [] {
      assert members + [x] == [x];
    } else {
      var head, rest := DumpMember(members[0]), members[1..];
      BeforeMembersMore(m, rest, x);
      assert (members + [x])[1..] == rest + [x] && (members + [x])[0] == members[0];
      Associate(head + ",", EachMember(rest), CleanTheorems.BeforeMembers(m, [x]));
      Associate(head + ",", DumpMembers(rest), ",");
      if rest == [] { assert members == [members[0]] && (head + ",") + "" == head + ","; }
    }
  }

  lemma {:induction false} BeforeWith(f: Frame, v: Json, m: string)
    requires NewKeyIn(f) && OpenFree(f, m)
    ensures CleanTheorems.BeforeJoin(m, FrameValue(With(f, v))) == UpToValue(f) + CleanTheorems.BeforeJoin(m, v)
  {
    var before := CleanTheorems.BeforeJoin(m, v);
    match f {
      case ArrayFrame(items) =>
        BeforeItemsMore(m, items, v);
        Associate("[", EachItem(items), before);
      case ObjectFrame(members, key) =>
        PutNew(members, key, v);
        BeforeMembersMore(m, members, Member(key, v));
        Associate("{", EachMember(members), (Quoted(key) + ":") + before);
        Associate("{" + EachMember(members), Quoted(key) + ":", before);
    }
  }

  lemma {:induction false} BeforeCollapsed(frames: seq<Frame>, m: string)
    requires frames != [] && OuterNew(frames) && OuterFree(frames, m)
    ensures CleanTheorems.BeforeJoin(m, Collapsed(frames)) ==
            AllUpToValue(Outer(frames)) + CleanTheorems.BeforeJoin(m, FrameValue(Top(frames)))
    decreases |frames|
  {
    hide CleanTheorems.BeforeJoin, NewKeyIn, OpenFree;
    var f := Top(frames);
    var before := CleanTheorems.BeforeJoin(m, FrameValue(f));
    if |frames| == 1 {
      assert "" + before == before;
    } else {
      var outer := Outer(frames);
      var next := Outer(outer) + [With(Top(outer), FrameValue(f))];
      NextFrames(frames, next);
      OuterFreeNext(frames, next, m);
      BeforeCollapsed(next, m);
      BeforeWith(Top(outer), FrameValue(f), m);
      Associate(AllUpToValue(Outer(outer)), UpToValue(Top(outer)), before);
    }
  }

  lemma {:induction false} BeforeStem(p: string, m: string)
    ensures CleanTheorems.BeforeString(m, p + m) == "\"" + Escape(p)
  {
    assert (p + m)[..|p|] == p;
  }

  lemma {:induction false} BeforeTop(b: Branch, f: Frame, p: string, m: string)
    requires m != "" && NewNamed(b, f, p + m) && (RoleWritten(b) == AsKey ==> f.ObjectFrame?)
    requires if RoleWritten(b) == AsKey then Free(m, FrameValue(f)) else OpenFree(f, m)
    ensures CleanTheorems.BeforeJoin(m, FrameValue(HealedTop(b, f, p + m))) == UpTo(b, f) + ("\"" + Escape(p))
  {
    BeforeStem(p, m);
    if RoleWritten(b) == AsKey {
      var x := Member(p + m, Num("1"));
      PutNew(f.members, p + m, Num("1"));
      BeforeMembersMore(m, f.members, x);
      assert (p + m)[|p|..|p| + |m|] == m;
      assert OccursAt(p + m, m, |p|);
      Associate("{", EachMember(f.members), "\"" + Escape(p));
    } else {
      BeforeWith(f, Str(p + m), m);
    }
  }

  /** In the dump of the healed value, what the shape says stands before the marker is what was read and
      the lead. */
  lemma {:induction false} BeforeHealed(b: Branch, r: Reader, m: string)
    requires FitsReader(r) && Starts(b, r.st) && r.frames != [] && m != "" && NewKeys(b, r, m) && ReadFree(b, r, m)
    ensures CleanTheorems.BeforeJoin(m, HealedValue(b, r, m)) == Rendered(r) + Lead(b)
  {
    hide Starts, FitsReader, Rendered, Lead, CleanTheorems.BeforeJoin, OpenFree, Free, HealedTop, Mirrors, AllUpToValue, AllUpToKey,
      UpTo, Escape, Collapsed, HealedValue, AllUpToEnd;
    var f, p := Top(r.frames), Stem(b, r);
    var frames := HealedFrames(b, r, m);
    forall i | 0 <= i < |frames| - 1 ensures OpenFree(frames[i], m) {
      assert frames[i] == Outer(frames)[i] == r.frames[i];
    }
    BeforeCollapsed(frames, m);
    TopKind(b, r);
    BeforeTop(b, f, p, m);
    LeadRendered(b, r);
    BaseIs(b, r);
    Associate(AllUpToValue(Outer(r.frames)), UpTo(b, f), "\"" + Escape(p));
  }

  /** What makes a healed text safe to cut: the marker is not in what was read, and where it is appended to
      a string it does not start in that string. */
  predicate Apart(b: Branch, r: Reader, m: string) {
    !Occurs(Rendered(r), m) && (Lead(b) == "" ==> forall p :: 0 < p < |m| ==> !Straddles(Rendered(r), m, p))
  }

  lemma {:induction false} ApartIsFree(b: Branch, r: Reader, m: string)
    requires FitsReader(r) && Starts(b, r.st) && r.frames != [] && PlainMarker(m) && Apart(b, r, m)
    ensures ReadFree(b, r, m)
  {
    RenderedFree(b, r, m);
    forall p | 0 < p < |m| ensures !Straddles(Stem(b, r), m, p) {
      if Straddles(Stem(b, r), m, p) { StemStraddles(b, r, m, p); }
    }
  }

  lemma {:induction false} ApartIsFirst(b: Branch, r: Reader, m: string, after: string)
    requires PlainMarker(m) && Apart(b, r, m)
    ensures FirstAt((Rendered(r) + Lead(b)) + m + after, m, |Rendered(r) + Lead(b)|)
  {
    var front := Rendered(r) + Lead(b);
    WithLead(b, Rendered(r), m);
    hide Rendered;
    if Lead(b) == "" { assert front == Rendered(r); }
    FirstAtJoin(front, m, after);
  }

  /** The value of a healed text, when the marker is apart from what was read: it has the marker in the
      place its branch put it, and its dump has it first there. */
  lemma {:induction false} ApartHealed(b: Branch, r: Reader, m: string) returns (v: Json)
    requires FitsReader(r) && Starts(b, r.st) && r.frames != [] && NoRepeats(r) && PlainMarker(m) && Apart(b, r, m)
    ensures v == HealedValue(b, r, m) && (v.Array? || v.Object?)
    ensures CleanTheorems.HealedAt(Lead(b), m, v, CleanTheorems.InMember)
    ensures FirstAt(Dump(v), m, |CleanTheorems.BeforeJoin(m, v)|)
  {
    hide Starts, FitsReader, Rendered, Lead, CleanTheorems.BeforeJoin, CleanTheorems.HealedAt, OpenFree, Free, NoRepeats, NewKeys, FirstAt,
      ReadFree, HealedValue, Dump, Straddles, Occurs;
    UnescapedPlain(m);
    KeysAreNew(b, r, m);
    ApartIsFree(b, r, m);
    HealedShapeExactly(b, r, m);
    BeforeHealed(b, r, m);
    var front, after := HealedDumped(b, r, m);
    ApartIsFirst(b, r, m, after);
    v := HealedValue(b, r, m);
    HealedIsContainer(b, r, m);
  }

  // ----- the place of the marker, wherever it may start

  lemma {:induction false} PutHolds(members: seq<Member>, key: string, v: Json) returns (i: nat)
    ensures i < |Put(members, key, v)| && Put(members, key, v)[i] == Member(key, v)
    decreases |members|
  {
    if members == [] || members[0].key == key {
      i := 0;
    } else {
      i := PutHolds(members[1..], key, v);
      i := i + 1;
    }
  }

  /** A value or key with the marker stays with it in what it is put in. */
  lemma {:induction false} WithMarked(f: Frame, v: Json, m: string)
    requires !Free(m, v) || (f.ObjectFrame? && Occurs(f.key, m))
    ensures !Free(m, FrameValue(With(f, v)))
  {
    match f {
      case ArrayFrame(items) => assert (items + [v])[|items|] == v;
      case ObjectFrame(members, key) => var i := PutHolds(members, key, v);
    }
  }

  lemma {:induction false} CollapsedMarked(frames: seq<Frame>, m: string)
    requires frames != [] && !Free(m, FrameValue(Top(frames)))
    ensures !Free(m, Collapsed(frames))
    decreases |frames|
  {
    if |frames| > 1 {
      var outer := Outer(frames);
      WithMarked(Top(outer), FrameValue(Top(frames)), m);
      CollapsedMarked(Outer(outer) + [With(Top(outer), FrameValue(Top(frames)))], m);
    }
  }

  /** A value in its place has the marker at most rightmost when nothing around it has it. */
  lemma {:induction false} WithRightmost(f: Frame, v: Json, m: string)
    requires NewKeyIn(f) && Free(m, FrameValue(f)) && Rightmost(m, v)
    ensures Rightmost(m, FrameValue(With(f, v)))
  {
    if f.ObjectFrame? { PutNew(f.members, f.key, v); }
  }

  lemma {:induction false} CollapsedRightmost(frames: seq<Frame>, m: string)
    requires frames != [] && OuterNew(frames) && OuterFree(frames, m) && Rightmost(m, FrameValue(Top(frames)))
    ensures Rightmost(m, Collapsed(frames))
    decreases |frames|
  {
    if |frames| > 1 {
      var outer := Outer(frames);
      var next := Outer(outer) + [With(Top(outer), FrameValue(Top(frames)))];
      NextFrames(frames, next);
      OuterFreeNext(frames, next, m);
      WithRightmost(Top(outer), FrameValue(Top(frames)), m);
      CollapsedRightmost(next, m);
    }
  }

  lemma {:induction false} StemMarked(p: string, m: string)
    ensures Occurs(p + m, m)
  {
    assert (p + m)[|p|..|p| + |m|] == m;
    assert OccursAt(p + m, m, |p|);
  }

  /** The value of a healed text has the marker, and with a marker that is not in what was read it has it in
      its rightmost leaf, or in the last key of its innermost rightmost object, only. */
  lemma {:induction false} HealedPlace(b: Branch, r: Reader, m: string)
    requires FitsReader(r) && Starts(b, r.st) && r.frames != [] && NoRepeats(r) && PlainMarker(m) && !Occurs(Rendered(r), m)
    ensures !Free(m, HealedValue(b, r, m)) && Rightmost(m, HealedValue(b, r, m))
  {
    var f, t := Top(r.frames), Stem(b, r) + m;
    RenderedFree(b, r, m);
    KeysAreNew(b, r, m);
    TopKind(b, r);
    StemMarked(Stem(b, r), m);
    hide FitsReader, Starts, Rendered, NoRepeats, Collapsed, Mirrors, Stem, Occurs, AllUpToEnd, AllUpToValue, UpToEnd;
    var frames := HealedFrames(b, r, m);
    TopPlace(b, f, t, m);
    CollapsedMarked(frames, m);
    assert forall i :: 0 <= i < |frames| - 1 ==> frames[i] == Outer(frames)[i] == r.frames[i];
    CollapsedRightmost(frames, m);
  }

  lemma {:induction false} TopPlace(b: Branch, f: Frame, t: string, m: string)
    requires Occurs(t, m) && NewNamed(b, f, t) && Free(m, FrameValue(f)) && (RoleWritten(b) == AsKey ==> f.ObjectFrame?)
    ensures var v := FrameValue(HealedTop(b, f, t)); !Free(m, v) && Rightmost(m, v)
  {
    if RoleWritten(b) == AsKey {
      WithMarked(Named(f, t), Num("1"), m);
      WithRightmost(Named(f, t), Num("1"), m);
    } else {
      WithMarked(f, Str(t), m);
      WithRightmost(f, Str(t), m);
    }
  }

  lemma {:induction false} HealedIsContainer(b: Branch, r: Reader, m: string)
    requires r.frames != []
    ensures HealedValue(b, r, m).Array? || HealedValue(b, r, m).Object?
  {
    CollapsedIsContainer(Outer(r.frames) + [HealedTop(b, Top(r.frames), Stem(b, r) + m)]);
  }

  lemma {:induction false} CollapsedIsContainer(frames: seq<Frame>)
    requires frames != []
    ensures Collapsed(frames).Array? || Collapsed(frames).Object?
    decreases |frames|
  {
    if |frames| > 1 {
      var outer := Outer(frames);
      CollapsedIsContainer(Outer(outer) + [With(Top(outer), FrameValue(Top(frames)))]);
    }
  }

  // ----- from the text

  lemma {:induction false} LeadApart(b: Branch, s: string, m: string)
    requires PlainMarker(m) && !Occurs(s, m)
    ensures !Occurs(s, Lead(b) + m)
    ensures Lead(b) != "" ==> forall p :: 0 < p < |Lead(b) + m| ==> !Straddles(s, Lead(b) + m, p)
  {
    var d := Lead(b) + m;
    PartNotIn(s, s, Lead(b), m);
    PlainCharacters(m);
    if Lead(b) != "" {
      assert d[0] == Lead(b)[0] && d[0] !in m;
      forall p | 0 < p < |d| ensures !Straddles(s, d, p) {
        assert d[p..][0] == d[p] && d[..|d| - p][0] == d[0];
        if p >= |Lead(b)| { assert d[p] == m[p - |Lead(b)|] && d[p] in m; }
      }
    }
  }

  /** With a marker that is not in what was read: the first `json_dump_marker` in the dump is where it was
      put, unless it is the bare marker and starts in the string it was appended to. */
  lemma {:induction false} MarkerCutExactly(b: Branch, r: Reader, m: string) returns (d: string, dm: string)
    requires FitsReader(r) && Starts(b, r.st) && r.frames != [] && NoRepeats(r) && PlainMarker(m) && !Occurs(Rendered(r), m)
    ensures d == Dump(HealedValue(b, r, m)) && dm == Lead(b) + m
    ensures d == Rendered(r) + dm + (DumpTail(b) + ClosingOf(r.st.open))
    ensures Find(d, dm, 0) == |Rendered(r)| <==> Lead(b) != "" || forall p :: 0 < p < |m| ==> !Straddles(Rendered(r), m, p)
  {
    hide Starts, FitsReader, Rendered, NoRepeats, NewKeys, HealedValue, Dump, Straddles, Occurs;
    UnescapedPlain(m);
    KeysAreNew(b, r, m);
    LeadApart(b, Rendered(r), m);
    var text: string;
    d, text, dm := CutExactly(b, r, m);
    if Lead(b) == "" { assert dm == m; }
  }

  /** The reader at the end of the text healing keeps. */
  function Kept(str: string, marker: string): Reader
    requires Heals(str, marker)
  {
    ReaderAt(Heal(str, StackAfter(str), marker).kept)
  }

  /** Any text that heals, without repeated keys: the dump of the healed value is the kept text as a dump
      writes it, the dump marker, and what closes the containers; and where the cut at the dump marker falls. */
  lemma {:induction false} HealedTextCut(str: string, m: string) returns (h: Healing, b: Branch, v: Json)
    requires Heals(str, m) && PlainMarker(m) && NoRepeats(Kept(str, m)) && !Occurs(Rendered(Kept(str, m)), m)
    ensures str != "" && b == BranchOf(str) && h == Heal(str, StackAfter(str), m) && h.dumpMarker == Lead(b) + m
    ensures v == ReadText(h.Text())
    ensures var kept := Rendered(Kept(str, m));
            && Dump(v) == kept + h.dumpMarker + (DumpTail(b) + ClosingOf(Kept(str, m).st.open))
            && (Find(Dump(v), h.dumpMarker, 0) == |kept| <==> Lead(b) != "" || forall p :: 0 < p < |m| ==> !Straddles(kept, m, p))
  {
    hide Starts, FitsReader, Rendered, NoRepeats, HealedValue, Dump, Straddles, Occurs;
    var r: Reader;
    h, b, r := HealedTextReads(str, m);
    v := ReadText(h.Text());
    var d, dm := MarkerCutExactly(b, r, m);
  }

  lemma {:induction false} StartsOutside(b: Branch, st: State)
    requires Starts(b, st)
    ensures !MidEscape(st)
  {
  }

  lemma {:induction false} KeptBefore(b: Branch, str: string, closing: string, marker: string)
    requires Write(b, str, closing, marker).Healed?
    ensures Write(b, str, closing, marker).kept <= str
  {
  }

  /** Where a dump is cut, the reader at the end of what healing keeps holds exactly that text. */
  lemma {:induction false} KeptOfDump(j: Json, k: nat, m: string) returns (s: string, h: Healing)
    requires Readable(j) && k <= |Dump(j)| && Heals(Dump(j)[..k], m)
    ensures s == Dump(j)[..k] && h == Heal(s, StackAfter(s), m) && h.Healed? && h.kept <= s
    ensures Rendered(Kept(s, m)) == h.kept && NoRepeats(Kept(s, m))
  {
    hide Rendered, NoRepeats, Dump, CanParse, Starts, FitsReader, HealedValue, Run, ReadRun, FindLast, LegalMarker;
    s := Dump(j)[..k];
    var b: Branch, r: Reader;
    h, b, r := HealedTextReads(s, m);
    KeptBefore(Choose(s, StackAfter(s), ClosingFor(StackAfter(s))), s, ClosingFor(StackAfter(s)), m);
    assert h.kept == Dump(j)[..|h.kept|];
    StartsOutside(b, r.st);
    CutDumpHeld(j, |h.kept|);
  }

  lemma {:induction false} NotInPrefix(a: string, s: string, m: string)
    requires a <= s && !Occurs(s, m)
    ensures !Occurs(a, m)
  {
    assert s == a + s[|a|..];
    NotOccursParts(a, s[|a|..], m);
  }

  /** Cutting the dump of the healed value at the first `json_dump_marker` gives back the text that was
      healed, for any cut of a dump and any marker not in it, exactly as the marker does not run over the end. */
  lemma {:induction false} CutGivesBackDump(j: Json, k: nat, m: string) returns (s: string, h: Healing, b: Branch, v: Json)
    requires Readable(j) && k <= |Dump(j)| && Heals(Dump(j)[..k], m) && PlainMarker(m) && !Occurs(Dump(j)[..k], m)
    ensures s == Dump(j)[..k] != "" && b == BranchOf(s) && h == Heal(s, StackAfter(s), m) && v == ReadText(h.Text())
    ensures Dump(v) == h.kept + h.dumpMarker + (DumpTail(b) + ClosingOf(Run(START, s).open))
    ensures Find(Dump(v), h.dumpMarker, 0) == |h.kept| <==> Lead(b) != "" || forall p :: 0 < p < |m| ==> !Straddles(h.kept, m, p)
  {
    hide Rendered, NoRepeats, Dump, Occurs, Straddles;
    s, h := KeptOfDump(j, k, m);
    NotInPrefix(h.kept, s, m);
    h, b, v := HealedTextCut(s, m);
    var r;
    h, b, r := HealedTextReads(s, m);
  }
}
