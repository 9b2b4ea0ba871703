/** The dump of a healed value, and cutting it at `json_dump_marker`. */
module HealedDump {
  import opened Collections
  import opened CommonJson
  import opened DumpRead
  import opened HealedRead
  import opened HealingTheorems
  import opened JsonClean
  import opened JsonRead
  import opened JsonText
  import opened JsonValue
  import opened PartialJson
  import opened Text
  import CleanTheorems

  // ----- the dump of a collapsed stack of containers

  lemma {:induction false} CloseFrameText(f: Frame)
    ensures Dump(FrameValue(f)) == UpToEnd(f) + [Bracket(KindOf(f))]
  {
  }

  lemma {:induction false} CollapsedDump(frames: seq<Frame>, open: seq<Container>)
    requires frames != [] && Mirrors(frames, open) && OuterNew(frames)
    ensures Dump(Collapsed(frames)) == AllUpToEnd(frames, Null) + ClosingOf(open)
    decreases |frames|
  {
    var f, outer := Top(frames), Outer(frames);
    var c := [Bracket(KindOf(f))];
    var inner := open[..|open| - 1];
    CloseFrameText(f);
    assert ClosingOf(open) == c + ClosingOf(inner);
    if |frames| == 1 {
      assert AllUpToEnd(frames, Null) == "" + UpToEnd(f);
      assert "" + UpToEnd(f) == UpToEnd(f) && c + "" == c;
    } else {
      var g := With(Top(outer), FrameValue(f));
      var next := Outer(outer) + [g];
      NextFrames(frames, next);
      CollapsedDump(next, inner);
      WithDumped(Top(outer), FrameValue(f));
      FiveParts(AllUpToValue(Outer(outer)), UpToValue(Top(outer)), UpToEnd(f), c, ClosingOf(inner));
    }
  }

  lemma {:induction false} NextFrames(frames: seq<Frame>, next: seq<Frame>)
    requires |frames| > 1 && next == Outer(Outer(frames)) + [With(Top(Outer(frames)), FrameValue(Top(frames)))]
    ensures |next| == |frames| - 1 && Outer(next) == Outer(Outer(frames)) && Top(next) == With(Top(Outer(frames)), FrameValue(Top(frames)))
    ensures OuterNew(frames) ==> OuterNew(next) && NewKeyIn(Top(Outer(frames)))
    ensures forall i :: 0 <= i < |next| ==> KindOf(next[i]) == KindOf(frames[i])
  {
    assert forall i :: 0 <= i < |frames| - 2 ==> next[i] == frames[i];
    assert Top(Outer(frames)) == frames[|frames| - 2];
  }

  lemma {:induction false} FiveParts(a: string, b: string, c: string, d: string, e: string)
    ensures (a + (b + (c + d))) + e == ((a + b) + c) + (d + e)
  {
  }

  // ----- what the branch adds

  /** What follows the marker in the dump, before the closing brackets: the blank of `": 1` is not there. */
  function DumpTail(b: Branch): string { if RoleWritten(b) == AsKey then "\":1" else "\"" }

  lemma {:induction false} QuotedMarker(p: string, m: string)
    requires CleanTheorems.Unescaped(m)
    ensures Quoted(p + m) == "\"" + Escape(p) + m + "\""
  {
    EscapeConcat(p, m);
    EscapeUnescaped(m);
    Associate("\"", Escape(p), m);
  }

  /** The key a branch writes, if any, is not in the object. */
  predicate NewNamed(b: Branch, f: Frame, t: string) {
    NewKeyIn(if RoleWritten(b) == AsKey then Named(f, t) else f)
  }

  lemma {:induction false} KeyParts(up: string, q: string, p: string, m: string)
    ensures up + (((q + p) + m + "\"") + ":") + "1" == up + (q + p) + m + "\":1"
  {
  }

  lemma {:induction false} ValueParts(up: string, q: string, p: string, m: string)
    ensures up + ((q + p) + m + "\"") == up + (q + p) + m + "\""
  {
  }

  lemma {:induction false} KeyDumped(f: Frame, p: string, m: string)
    requires CleanTheorems.Unescaped(m) && f.ObjectFrame? && NewKeyIn(Named(f, p + m))
    ensures UpToEnd(With(Named(f, p + m), Num("1"))) == UpToKey(f) + ("\"" + Escape(p)) + m + "\":1"
  {
    QuotedMarker(p, m);
    var g := Named(f, p + m);
    WithDumped(g, Num("1"));
    assert UpToValue(g) == UpToKey(f) + (Quoted(p + m) + ":");
    hide UpToKey, UpToValue, UpToEnd, Quoted, Escape, With, NewKeyIn;
    KeyParts(UpToKey(f), "\"", Escape(p), m);
  }

  lemma {:induction false} StringDumped(f: Frame, p: string, m: string)
    requires CleanTheorems.Unescaped(m) && NewKeyIn(f)
    ensures UpToEnd(With(f, Str(p + m))) == UpToValue(f) + ("\"" + Escape(p)) + m + "\""
  {
    QuotedMarker(p, m);
    WithDumped(f, Str(p + m));
    hide UpToKey, UpToValue, UpToEnd, Quoted, Escape, With, NewKeyIn;
    ValueParts(UpToValue(f), "\"", Escape(p), m);
  }

  function UpTo(b: Branch, f: Frame): string { if RoleWritten(b) == AsKey then UpToKey(f) else UpToValue(f) }

  lemma {:induction false} TopDumped(b: Branch, f: Frame, p: string, m: string)
    requires CleanTheorems.Unescaped(m) && NewNamed(b, f, p + m) && (RoleWritten(b) == AsKey ==> f.ObjectFrame?)
    ensures UpToEnd(HealedTop(b, f, p + m)) == UpTo(b, f) + ("\"" + Escape(p)) + m + DumpTail(b)
  {
    hide UpToKey, UpToValue, UpToEnd, Escape, With, NewKeyIn;
    if RoleWritten(b) == AsKey { KeyDumped(f, p, m); } else { StringDumped(f, p, m); }
  }

  lemma {:induction false} LeadNone(b: Branch, r: Reader)
    requires FitsReader(r) && Starts(b, r.st) && Lead(b) == ""
    ensures Base(r, RoleWritten(b)) + ("\"" + Escape(Stem(b, r))) == Rendered(r) + Lead(b)
  {
    assert Rendered(r) == Base(r, RoleWritten(b)) + ("\"" + Escape(r.buf) + "");
    assert "\"" + Escape(r.buf) + "" == "\"" + Escape(r.buf);
    assert Rendered(r) + "" == Rendered(r);
  }

  lemma {:induction false} EscapedBackslash(base: string, q: string, e: string)
    ensures base + (q + (e + "\\\\")) == base + (q + e + "\\") + "\\"
  {
    assert "\\\\" == "\\" + "\\";
  }

  lemma {:induction false} RenderedEscape(b: Branch, r: Reader)
    requires Starts(b, r.st) && Lead(b) == "\\"
    ensures Rendered(r) == Base(r, RoleWritten(b)) + ("\"" + Escape(r.buf) + "\\") && Stem(b, r) == r.buf + "\\"
  {
  }

  lemma {:induction false} LeadBackslash(b: Branch, r: Reader)
    requires FitsReader(r) && Starts(b, r.st) && Lead(b) == "\\"
    ensures Base(r, RoleWritten(b)) + ("\"" + Escape(Stem(b, r))) == Rendered(r) + Lead(b)
  {
    EscapeConcat(r.buf, "\\");
    EscapeOne('\\');
    RenderedEscape(b, r);
    hide Rendered, Escape, Stem, Starts, FitsReader, AllUpToKey, AllUpToValue;
    EscapedBackslash(Base(r, RoleWritten(b)), "\"", Escape(r.buf));
  }

  lemma {:induction false} LeadQuote(b: Branch, r: Reader)
    requires FitsReader(r) && Starts(b, r.st) && Lead(b) == "\""
    ensures Base(r, RoleWritten(b)) + ("\"" + Escape(Stem(b, r))) == Rendered(r) + Lead(b)
  {
    assert "\"" + Escape("") == "\"";
  }

  lemma {:induction false} SeparatorRendered(b: Branch, r: Reader)
    requires FitsReader(r) && Starts(b, r.st) && |Lead(b)| == 2
    ensures Base(r, RoleWritten(b)) == Rendered(r) + [Lead(b)[0]] && Stem(b, r) == ""
  {
    FramesOpen(r);
    if b == AfterKey {
      var f := Top(r.frames);
      assert TopIs(r.st.open, Obj) && f.ObjectFrame?;
      Associate(AllUpToValue(Outer(r.frames)), UpToKey(f), Quoted(f.key) + ":");
      Associate(AllUpToValue(Outer(r.frames)) + UpToKey(f), Quoted(f.key), ":");
    } else {
      CommaText(r.frames, r.root);
    }
  }

  lemma {:induction false} LeadSeparator(b: Branch, r: Reader)
    requires FitsReader(r) && Starts(b, r.st) && |Lead(b)| == 2
    ensures Base(r, RoleWritten(b)) + ("\"" + Escape(Stem(b, r))) == Rendered(r) + Lead(b)
  {
    hide Rendered, Stem, Starts, FitsReader, AllUpToKey, AllUpToValue;
    SeparatorRendered(b, r);
    assert "\"" + Escape("") == "\"";
    assert Lead(b) == [Lead(b)[0]] + "\"";
  }

  /** What is held when healing starts, with the lead, is what the dump has up to the marker. */
  lemma {:induction false} LeadRendered(b: Branch, r: Reader)
    requires FitsReader(r) && Starts(b, r.st)
    ensures Base(r, RoleWritten(b)) + ("\"" + Escape(Stem(b, r))) == Rendered(r) + Lead(b)
  {
    if Lead(b) == "" {
      LeadNone(b, r);
    } else if Lead(b) == "\\" {
      LeadBackslash(b, r);
    } else if Lead(b) == "\"" {
      LeadQuote(b, r);
    } else {
      LeadSeparator(b, r);
    }
  }

  /** The keys that matter are new: of the pending values, and the one the branch writes. */
  predicate NewKeys(b: Branch, r: Reader, m: string)
    requires r.frames != []
  {
    OuterNew(r.frames) && NewNamed(b, Top(r.frames), Stem(b, r) + m)
  }

  lemma {:induction false} TopKind(b: Branch, r: Reader)
    requires FitsReader(r) && Starts(b, r.st)
    ensures r.frames != [] && (RoleWritten(b) == AsKey ==> Top(r.frames).ObjectFrame?)
  {
    FramesOpen(r);
    assert KindOf(Top(r.frames)) == r.st.open[|r.st.open| - 1];
  }

  lemma {:induction false} JoinedDump(outer: string, top: string, p: string, m: string, tail: string, closing: string)
    returns (whole: string, front: string)
    ensures whole == outer + (top + p + m + tail) + closing && front == (outer + top) + p
    ensures whole == front + m + (tail + closing)
  {
    whole, front := outer + (top + p + m + tail) + closing, (outer + top) + p;
  }

  lemma {:induction false} BaseIs(b: Branch, r: Reader)
    requires r.frames != []
    ensures Base(r, RoleWritten(b)) == AllUpToValue(Outer(r.frames)) + UpTo(b, Top(r.frames))
  {
  }

  lemma {:induction false} HealedFrames(b: Branch, r: Reader, m: string) returns (frames: seq<Frame>)
    requires FitsReader(r) && r.frames != [] && NewKeys(b, r, m)
    ensures frames != [] && HealedValue(b, r, m) == Collapsed(frames) && Mirrors(frames, r.st.open) && OuterNew(frames)
    ensures Outer(frames) == Outer(r.frames) && Top(frames) == HealedTop(b, Top(r.frames), Stem(b, r) + m)
    ensures forall root :: AllUpToEnd(frames, root) == AllUpToValue(Outer(r.frames)) + UpToEnd(Top(frames))
  {
    frames := HealedMirrors(b, r, Stem(b, r) + m);
    assert Outer(frames) == Outer(r.frames);
    assert forall i :: 0 <= i < |frames| - 1 ==> frames[i] == r.frames[i];
  }

  /** The dump of the healed value: what was read, written as a dump writes it, then the dump marker, then
      what closes the string and the containers. */
  lemma {:induction false} HealedDumped(b: Branch, r: Reader, m: string) returns (text: string, after: string)
    requires FitsReader(r) && Starts(b, r.st) && CleanTheorems.Unescaped(m)
    requires r.frames != [] && NewKeys(b, r, m)
    ensures text == Rendered(r) + Lead(b) && after == DumpTail(b) + ClosingOf(r.st.open)
    ensures Dump(HealedValue(b, r, m)) == text + m + after
  {
    hide Rendered, Lead, HealedTop, Starts, FitsReader, Mirrors, Escape, UpToKey, UpToValue, UpToEnd, AllUpToValue, AllUpToEnd,
      AllUpToKey, Collapsed, Dump, HealedValue, OuterNew;
    var f, p := Top(r.frames), Stem(b, r);
    var frames := HealedFrames(b, r, m);
    TopKind(b, r);
    CollapsedDump(frames, r.st.open);
    TopDumped(b, f, p, m);
    LeadRendered(b, r);
    BaseIs(b, r);
    after := DumpTail(b) + ClosingOf(r.st.open);
    var whole: string;
    whole, text := JoinedDump(AllUpToValue(Outer(r.frames)), UpTo(b, f), "\"" + Escape(p), m, DumpTail(b), ClosingOf(r.st.open));
  }

  // ----- the shape of a healed value

  /** The marker is in nothing the container holds, nor in the key of the value that is pending. */
  predicate OpenFree(f: Frame, m: string) {
    Free(m, FrameValue(f)) && (f.ObjectFrame? ==> !Occurs(f.key, m))
  }

  function PlaceIn(f: Frame): CleanTheorems.Place {
    match f
    case ObjectFrame(_, _) => CleanTheorems.InMember
    case ArrayFrame(items) => if items == [] then CleanTheorems.FirstItem else CleanTheorems.LaterItem
  }

  lemma {:induction false} ItemsHealedMore(lead: string, m: string, items: seq<Json>, v: Json, first: bool)
    ensures CleanTheorems.HealedItems(lead, m, items + [v], first) <==>
            Free(m, Array(items)) &&
            CleanTheorems.HealedAt(lead, m, v, if items == [] && first then CleanTheorems.FirstItem else CleanTheorems.LaterItem)
    decreases |items|
  {
    if items == [] {
      assert items + [v] == [v];
    } else {
      var rest := items[1..];
      assert (items + [v])[1..] == rest + [v] && (items + [v])[0] == items[0];
      ItemsHealedMore(lead, m, rest, v, false);
      assert Free(m, Array(items)) <==> Free(m, items[0]) && Free(m, Array(rest)) by {
        assert items == [items[0]] + rest;
      }
    }
  }

  lemma {:induction false} MembersHealedMore(lead: string, m: string, members: seq<Member>, x: Member, first: bool)
    ensures CleanTheorems.HealedMembers(lead, m, members + [x], first) <==>
            Free(m, Object(members)) && CleanTheorems.HealedMembers(lead, m, [x], first && members == [])
    decreases |members|
  {
    if members == [] {
      assert members + [x] == [x];
    } else {
      var rest := members[1..];
      assert (members + [x])[1..] == rest + [x] && (members + [x])[0] == members[0];
      MembersHealedMore(lead, m, rest, x, false);
      assert Free(m, Object(members)) <==> !Occurs(members[0].key, m) && Free(m, members[0].value) && Free(m, Object(rest)) by {
        assert members == [members[0]] + rest;
      }
    }
  }

  /** A value put where the container waits for one: the whole is healed exactly when the value is and the
      marker is nowhere else. */
  lemma {:induction false} WithHealed(lead: string, m: string, f: Frame, v: Json, place: CleanTheorems.Place)
    requires NewKeyIn(f) && !v.Num?
    ensures CleanTheorems.HealedAt(lead, m, FrameValue(With(f, v)), place) <==> OpenFree(f, m) && CleanTheorems.HealedAt(lead, m, v, PlaceIn(f))
  {
    match f {
      case ArrayFrame(items) =>
        ItemsHealedMore(lead, m, items, v, true);
      case ObjectFrame(members, key) =>
        PutNew(members, key, v);
        MembersHealedMore(lead, m, members, Member(key, v), true);
    }
  }

  /** All containers but the innermost have the marker nowhere. */
  predicate OuterFree(frames: seq<Frame>, m: string) {
    forall i :: 0 <= i < |frames| - 1 ==> OpenFree(frames[i], m)
  }

  lemma {:induction false} HealedAnyPlace(lead: string, m: string, j: Json, a: CleanTheorems.Place, b: CleanTheorems.Place)
    requires j.Array? || j.Object?
    ensures CleanTheorems.HealedAt(lead, m, j, a) <==> CleanTheorems.HealedAt(lead, m, j, b)
  {
  }

  lemma {:induction false} CollapsedHealed(lead: string, m: string, frames: seq<Frame>)
    requires frames != [] && OuterNew(frames)
    ensures CleanTheorems.HealedAt(lead, m, Collapsed(frames), CleanTheorems.InMember) <==>
            OuterFree(frames, m) && CleanTheorems.HealedAt(lead, m, FrameValue(Top(frames)), CleanTheorems.InMember)
    decreases |frames|
  {
    if |frames| > 1 {
      var f, outer := Top(frames), Outer(frames);
      var next := Outer(outer) + [With(Top(outer), FrameValue(f))];
      NextFrames(frames, next);
      CollapsedHealed(lead, m, next);
      WithHealed(lead, m, Top(outer), FrameValue(f), CleanTheorems.InMember);
      HealedAnyPlace(lead, m, FrameValue(f), PlaceIn(Top(outer)), CleanTheorems.InMember);
      OuterFreeNext(frames, next, m);
    }
  }

  lemma {:induction false} OuterFreeNext(frames: seq<Frame>, next: seq<Frame>, m: string)
    requires |frames| > 1 && next == Outer(Outer(frames)) + [With(Top(Outer(frames)), FrameValue(Top(frames)))]
    ensures OuterFree(frames, m) <==> OuterFree(next, m) && OpenFree(Top(Outer(frames)), m)
  {
    assert forall i :: 0 <= i < |frames| - 2 ==> next[i] == frames[i];
    assert Top(Outer(frames)) == frames[|frames| - 2];
    if OuterFree(frames, m) {
      assert forall i :: 0 <= i < |next| - 1 ==> next[i] == frames[i] && OpenFree(frames[i], m);
    }
  }

  /** What has been read has the marker nowhere: in no string or key of a container, and neither in the
      string it is appended to nor over that string's end. */
  predicate ReadFree(b: Branch, r: Reader, m: string)
    requires r.frames != []
  {
    && OuterFree(r.frames, m)
    && (if RoleWritten(b) == AsKey then Free(m, FrameValue(Top(r.frames))) else OpenFree(Top(r.frames), m))
    && !Occurs(Stem(b, r), m) && forall p :: 0 < p < |m| ==> !Straddles(Stem(b, r), m, p)
  }

  lemma {:induction false} StemHealed(b: Branch, r: Reader, m: string)
    requires m != ""
    ensures CleanTheorems.HealedString(Lead(b), m, Stem(b, r) + m) <==>
            !Occurs(Stem(b, r), m) && forall p :: 0 < p < |m| ==> !Straddles(Stem(b, r), m, p)
  {
    var p := Stem(b, r);
    FirstAtJoin(p, m, "");
    assert p + m + "" == p + m;
    assert (p + m)[|p|..] == m;
    if FirstAt(p + m, m, |p|) { FindIs(p + m, m, 0, |p|); }
  }

  lemma {:induction false} TopKeyHealed(b: Branch, f: Frame, t: string, m: string)
    requires RoleWritten(b) == AsKey && f.ObjectFrame? && NewKeyIn(Named(f, t)) && (b == NextPair ==> f.members != [])
    requires m != "" && |t| >= |m| && t[|t| - |m|..] == m
    ensures CleanTheorems.HealedAt(Lead(b), m, FrameValue(HealedTop(b, f, t)), CleanTheorems.InMember) <==>
            Free(m, FrameValue(f)) && CleanTheorems.HealedString(Lead(b), m, t)
  {
    hide Lead, CleanTheorems.HealedString, Free;
    PutNew(f.members, t, Num("1"));
    MembersHealedMore(Lead(b), m, f.members, Member(t, Num("1")), true);
    KeyHealed(b, m, t, f.members == []);
  }

  lemma {:induction false} TopStringHealed(b: Branch, f: Frame, t: string, m: string)
    requires RoleWritten(b) == AsValue && NewKeyIn(f)
    requires Lead(b) == ":\"" ==> PlaceIn(f) == CleanTheorems.InMember
    requires Lead(b) == ",\"" ==> PlaceIn(f) == CleanTheorems.LaterItem
    ensures CleanTheorems.HealedAt(Lead(b), m, FrameValue(HealedTop(b, f, t)), CleanTheorems.InMember) <==>
            OpenFree(f, m) && CleanTheorems.HealedString(Lead(b), m, t)
  {
    hide Lead, CleanTheorems.HealedString, OpenFree;
    WithHealed(Lead(b), m, f, Str(t), CleanTheorems.InMember);
  }

  lemma {:induction false} TopHealed(b: Branch, r: Reader, m: string)
    requires FitsReader(r) && Starts(b, r.st) && m != "" && r.frames != [] && NewKeys(b, r, m)
    ensures CleanTheorems.HealedAt(Lead(b), m, FrameValue(HealedTop(b, Top(r.frames), Stem(b, r) + m)), CleanTheorems.InMember) <==>
            (if RoleWritten(b) == AsKey then Free(m, FrameValue(Top(r.frames))) else OpenFree(Top(r.frames), m)) &&
            CleanTheorems.HealedString(Lead(b), m, Stem(b, r) + m)
  {
    hide FitsReader, Starts, Lead, CleanTheorems.HealedAt, CleanTheorems.HealedString, OpenFree, Free, HealedTop, Stem, NewKeyIn, Tail;
    var f, t := Top(r.frames), Stem(b, r) + m;
    assert t[|t| - |m|..] == m;
    TopKind(b, r);
    if RoleWritten(b) == AsKey {
      NextPairLater(b, r);
      TopKeyHealed(b, f, t, m);
    } else {
      SeparatorPlace(b, r);
      TopStringHealed(b, f, t, m);
    }
  }

  lemma {:induction false} KeyHealed(b: Branch, m: string, t: string, first: bool)
    requires RoleWritten(b) == AsKey && m != "" && |t| >= |m| && t[|t| - |m|..] == m && (b == NextPair ==> !first)
    ensures CleanTheorems.HealedMembers(Lead(b), m, [Member(t, Num("1"))], first) <==> CleanTheorems.HealedString(Lead(b), m, t)
  {
  }

  lemma {:induction false} NextPairLater(b: Branch, r: Reader)
    requires FitsReader(r) && Starts(b, r.st) && r.frames != []
    ensures b == NextPair && Top(r.frames).ObjectFrame? ==> Top(r.frames).members != []
  {
  }

  lemma {:induction false} SeparatorPlace(b: Branch, r: Reader)
    requires FitsReader(r) && Starts(b, r.st) && RoleWritten(b) == AsValue && r.frames != []
    ensures Lead(b) == ":\"" ==> PlaceIn(Top(r.frames)) == CleanTheorems.InMember
    ensures Lead(b) == ",\"" ==> PlaceIn(Top(r.frames)) == CleanTheorems.LaterItem
  {
    assert KindOf(Top(r.frames)) == r.st.open[|r.st.open| - 1];
  }

  /** The value of a healed text has the marker where its branch put it, and there only, exactly when what
      was read has it nowhere. */
  lemma {:induction false} HealedShapeExactly(b: Branch, r: Reader, m: string)
    requires FitsReader(r) && Starts(b, r.st) && m != "" && r.frames != [] && NewKeys(b, r, m)
    ensures CleanTheorems.HealedAt(Lead(b), m, HealedValue(b, r, m), CleanTheorems.InMember) <==> ReadFree(b, r, m)
  {
    hide FitsReader, Starts, CleanTheorems.HealedAt, CleanTheorems.HealedString, Collapsed, Mirrors, Stem, HealedTop, OpenFree;
    var frames := HealedFrames(b, r, m);
    CollapsedHealed(Lead(b), m, frames);
    TopHealed(b, r, m);
    StemHealed(b, r, m);
    assert forall i :: 0 <= i < |frames| - 1 ==> frames[i] == Outer(frames)[i] == r.frames[i];
    assert OuterFree(frames, m) <==> OuterFree(r.frames, m);
  }
}
